/**
 * One encoded read (`process_encoded_async_read`): the blocks of a payload are decoded into a list of
 * destination iovecs. Raw blocks, split blocks and most zero blocks are written at once through a
 * cursor over the iovecs; every other block becomes a job that the worker pool runs later, in any order.
 */
module EncodedRead {
  import opened Common
  import opened Iovecs
  import DecompressionPool
  import PoolProgress
  import JobQueue

  const PAGE_SIZE: nat := 4096
  const MAX_BLOCK_PAGES: nat := 1024
  const SIZE_MAX: nat := 0xffff_ffff_ffff_ffff

  /** One block of the layout: its stored size, and its pages when the layout is block based. */
  datatype Block = Block(size: nat, pages: nat)

  /** `struct page_read_iov`: the block layout and the destination. */
  datatype Request = Request(blocks: seq<Block>, pagesPerBlock: nat, totalBytes: nat, nPages: nat, to: seq<Iovec>)

  /** `struct decompress_job`. */
  datatype Job = Job(src: seq<Byte>, dst: nat, pages: nat, blockIndex: nat)

  /** LZ4_decompress_safe with the wanted size: what it produced, if anything. */
  type Lz4 = (seq<Byte>, nat) -> Option<seq<Byte>>

  // ---- Decoding one block ----

  function PagesOf(req: Request, i: nat): nat
    requires i < |req.blocks|
  {
    if req.pagesPerBlock == 0 then 1 else req.blocks[i].pages
  }

  function BytesOf(req: Request, i: nat): nat
    requires i < |req.blocks|
  {
    PagesOf(req, i) * PAGE_SIZE
  }

  /** `decompress_data_nolog`: only an exact length counts as success. */
  function Lz4Exact(lz4: Lz4, src: seq<Byte>, n: nat): Option<seq<Byte>> {
    var r := lz4(src, n);
    if r.Some? && |r.value| == n then r else None
  }

  /** The meaning of a stored block, by its size: zeros, raw, too long, or LZ4. */
  function Decode(lz4: Lz4, stored: seq<Byte>, bytes: nat): (r: Option<seq<Byte>>)
    ensures r.Some? ==> |r.value| == bytes
  {
    if stored == [] then Some(Zeros(bytes))
    else if |stored| == bytes then Some(stored)
    else if |stored| > bytes then None
    else Lz4Exact(lz4, stored, bytes)
  }

  /** `decompress_block`, which decodes a split block into the scratch buffer. */
  function DecompressBlock(lz4: Lz4, stored: seq<Byte>, pages: nat): Option<seq<Byte>> {
    if pages == 0 || pages > MAX_BLOCK_PAGES then None else Decode(lz4, stored, pages * PAGE_SIZE)
  }

  /** `decompress_job_run`, which refuses raw blocks. */
  function RunJob(lz4: Lz4, job: Job): (r: Option<seq<Byte>>)
    ensures r.Some? ==> |r.value| == job.pages * PAGE_SIZE
  {
    if job.pages == 0 || job.pages > MAX_BLOCK_PAGES then None
    else if |job.src| == 0 then Some(Zeros(job.pages * PAGE_SIZE))
    else if |job.src| >= job.pages * PAGE_SIZE then None
    else Lz4Exact(lz4, job.src, job.pages * PAGE_SIZE)
  }

  // ---- The whole read, block by block: the reference that the cursors must agree with ----

  /** Payload bytes of the first `n` blocks. */
  function SizeUpTo(req: Request, n: nat): nat
    requires n <= |req.blocks|
  {
    if n == 0 then 0 else SizeUpTo(req, n - 1) + req.blocks[n - 1].size
  }

  /** Decoded bytes of the first `n` blocks. */
  function BytesUpTo(req: Request, n: nat): nat
    requires n <= |req.blocks|
  {
    if n == 0 then 0 else BytesUpTo(req, n - 1) + BytesOf(req, n - 1)
  }

  function Stored(req: Request, payload: seq<Byte>, i: nat): seq<Byte>
    requires i < |req.blocks| && SizeUpTo(req, i + 1) <= |payload|
  {
    payload[SizeUpTo(req, i)..SizeUpTo(req, i + 1)]
  }

  /** The concatenation of the first `n` decoded blocks, if all of them decode. */
  function DecodeAll(lz4: Lz4, req: Request, payload: seq<Byte>, n: nat): (r: Option<seq<Byte>>)
    requires n <= |req.blocks|
    ensures r.Some? ==> |r.value| == BytesUpTo(req, n)
  {
    if n == 0 then Some([])
    else if SizeUpTo(req, n) > |payload| then None
    else
      var front := DecodeAll(lz4, req, payload, n - 1);
      var last := Decode(lz4, Stored(req, payload, n - 1), BytesOf(req, n - 1));
      if front.None? || last.None? then None else Some(front.value + last.value)
  }

  /** Metadata that the reader accepts: valid blocks that use up the payload and fill the destination exactly. */
  ghost predicate Consistent(req: Request) {
    && 0 < |req.blocks| <= INT_MAX
    && req.totalBytes <= SIZE_MAX && req.nPages <= SIZE_MAX / PAGE_SIZE
    && (forall i :: 0 <= i < |req.blocks| ==> BlockValid(req, i))
    && SizeUpTo(req, |req.blocks|) == req.totalBytes
    && BytesUpTo(req, |req.blocks|) == req.nPages * PAGE_SIZE == Total(req.to)
  }

  predicate BlockValid(req: Request, i: nat)
    requires i < |req.blocks|
  {
    && PagesOf(req, i) > 0
    && (req.pagesPerBlock > 0 ==> PagesOf(req, i) <= req.pagesPerBlock)
    && req.blocks[i].size <= BytesOf(req, i)
  }

  lemma {:induction false} UpToMono(req: Request, m: nat, n: nat)
    requires m <= n <= |req.blocks|
    ensures SizeUpTo(req, m) <= SizeUpTo(req, n) && BytesUpTo(req, m) <= BytesUpTo(req, n)
    decreases n
  {
    if m < n {
      UpToMono(req, m, n - 1);
    }
  }

  lemma {:induction false} DecodeAllPrefix(lz4: Lz4, req: Request, payload: seq<Byte>, m: nat, n: nat)
    requires m <= n <= |req.blocks| && DecodeAll(lz4, req, payload, n).Some?
    ensures DecodeAll(lz4, req, payload, m).Some?
    decreases n
  {
    if m < n {
      DecodeAllPrefix(lz4, req, payload, m, n - 1);
    }
  }

  // ---- What the blocks mean ----

  /**
   * What is stored for a block can be decoded: nothing, the bytes themselves, or what LZ4
   * expands to exactly as many.
   */
  ghost predicate Decodes(lz4: Lz4, stored: seq<Byte>, bytes: nat) {
    || |stored| == 0 || |stored| == bytes
    || (|stored| < bytes && exists data :: lz4(stored, bytes) == Some(data) && |data| == bytes)
  }

  /** `out` is what is stored, decoded: zeros for nothing, a copy of what is as long, and else what LZ4 says. */
  ghost predicate DecodesTo(lz4: Lz4, stored: seq<Byte>, out: seq<Byte>) {
    && (|stored| == 0 ==> forall j :: 0 <= j < |out| ==> out[j] == 0)
    && (0 < |stored| == |out| ==> out == stored)
    && (0 < |stored| != |out| ==> |stored| < |out| && lz4(stored, |out|) == Some(out))
  }

  /** Block `i` of the payload is decoded to its own bytes of `out`. */
  ghost predicate BlockRestored(lz4: Lz4, req: Request, payload: seq<Byte>, out: seq<Byte>, i: nat)
    requires i < |req.blocks|
  {
    var from, to, at, end := SizeUpTo(req, i), SizeUpTo(req, i + 1), BytesUpTo(req, i), BytesUpTo(req, i + 1);
    to <= |payload| && end <= |out| && DecodesTo(lz4, payload[from..to], out[at..end])
  }

  ghost predicate Restored(lz4: Lz4, req: Request, payload: seq<Byte>, out: seq<Byte>) {
    && |out| == BytesUpTo(req, |req.blocks|)
    && forall i :: 0 <= i < |req.blocks| ==> BlockRestored(lz4, req, payload, out, i)
  }

  ghost predicate BlockDecodes(lz4: Lz4, req: Request, payload: seq<Byte>, i: nat)
    requires i < |req.blocks|
  {
    SizeUpTo(req, i + 1) <= |payload| && Decodes(lz4, payload[SizeUpTo(req, i)..SizeUpTo(req, i + 1)], BytesOf(req, i))
  }

  /** One block is one page, or as many as the layout says. */
  lemma {:induction false} PageLayout(req: Request, n: nat)
    requires n <= |req.blocks|
    ensures req.pagesPerBlock == 0 ==> BytesUpTo(req, n) == n * PAGE_SIZE
    ensures req.pagesPerBlock > 0 && n > 0 ==>
              BytesUpTo(req, n) == BytesUpTo(req, n - 1) + req.blocks[n - 1].pages * PAGE_SIZE
  {
    if n > 0 {
      PageLayout(req, n - 1);
    }
  }

  lemma {:induction false} DecodeMeans(lz4: Lz4, stored: seq<Byte>, bytes: nat)
    ensures Decode(lz4, stored, bytes).Some? <==> Decodes(lz4, stored, bytes)
    ensures Decode(lz4, stored, bytes).Some? ==> DecodesTo(lz4, stored, Decode(lz4, stored, bytes).value)
  {
  }

  lemma {:induction false} FrontSlice(front: seq<Byte>, last: seq<Byte>, a: nat, b: nat)
    requires a <= b <= |front|
    ensures (front + last)[a..b] == front[a..b]
  {
  }

  lemma {:induction false} LastSlice(front: seq<Byte>, last: seq<Byte>)
    ensures (front + last)[|front|..|front| + |last|] == last
  {
  }

  lemma {:induction false} BlockOfAll(lz4: Lz4, req: Request, payload: seq<Byte>, n: nat, i: nat)
    requires i < n <= |req.blocks| && DecodeAll(lz4, req, payload, n).Some?
    ensures BlockDecodes(lz4, req, payload, i)
    ensures BlockRestored(lz4, req, payload, DecodeAll(lz4, req, payload, n).value, i)
    decreases n
  {
    DecodeAllPrefix(lz4, req, payload, n - 1, n);
    var front, last := DecodeAll(lz4, req, payload, n - 1).value, Stored(req, payload, n - 1);
    DecodeMeans(lz4, last, BytesOf(req, n - 1));
    if i < n - 1 {
      BlockOfAll(lz4, req, payload, n - 1, i);
      UpToMono(req, i + 1, n - 1);
      FrontSlice(front, Decode(lz4, last, BytesOf(req, n - 1)).value, BytesUpTo(req, i), BytesUpTo(req, i + 1));
    } else {
      LastSlice(front, Decode(lz4, last, BytesOf(req, n - 1)).value);
    }
  }

  lemma {:induction false} AllDecode(lz4: Lz4, req: Request, payload: seq<Byte>, n: nat)
    requires n <= |req.blocks| && forall i :: 0 <= i < n ==> BlockDecodes(lz4, req, payload, i)
    ensures DecodeAll(lz4, req, payload, n).Some?
  {
    if n > 0 {
      AllDecode(lz4, req, payload, n - 1);
      assert BlockDecodes(lz4, req, payload, n - 1);
      DecodeMeans(lz4, Stored(req, payload, n - 1), BytesOf(req, n - 1));
    }
  }

  /** The concatenation of decoded blocks, block by block. */
  lemma {:induction false} DecodeAllMeans(lz4: Lz4, req: Request, payload: seq<Byte>)
    ensures var all := DecodeAll(lz4, req, payload, |req.blocks|);
            && (all.Some? <==> forall i :: 0 <= i < |req.blocks| ==> BlockDecodes(lz4, req, payload, i))
            && (all.Some? ==> Restored(lz4, req, payload, all.value))
  {
    var n := |req.blocks|;
    if DecodeAll(lz4, req, payload, n).Some? {
      forall i | 0 <= i < n
        ensures BlockDecodes(lz4, req, payload, i)
        ensures BlockRestored(lz4, req, payload, DecodeAll(lz4, req, payload, n).value, i)
      {
        BlockOfAll(lz4, req, payload, n, i);
      }
    } else if forall i :: 0 <= i < n ==> BlockDecodes(lz4, req, payload, i) {
      AllDecode(lz4, req, payload, n);
    }
  }

  // ---- The destination as one stream of positions ----

  /** The address of position `p` of the first `n` iovecs. */
  function AddrIn(to: seq<Iovec>, n: nat, p: nat): nat
    requires n <= |to| && p < Start(to, n)
  {
    if p >= Start(to, n - 1) then to[n - 1].base + (p - Start(to, n - 1)) else AddrIn(to, n - 1, p)
  }

  function Addr(to: seq<Iovec>, p: nat): nat
    requires p < Total(to)
  {
    AddrIn(to, |to|, p)
  }

  predicate Within(v: Iovec, a: nat) { v.base <= a < v.base + v.len }

  ghost predicate Outside(to: seq<Iovec>, a: nat) { forall i :: 0 <= i < |to| ==> !Within(to[i], a) }

  ghost predicate Disjoint(to: seq<Iovec>) {
    forall i, j, a: nat :: 0 <= i < j < |to| && Within(to[i], a) ==> !Within(to[j], a)
  }

  /** Which iovec a position lies in. */
  lemma {:induction false} Locate(to: seq<Iovec>, n: nat, p: nat) returns (i: nat)
    requires n <= |to| && p < Start(to, n)
    ensures i < n && Start(to, i) <= p < Start(to, i + 1)
    ensures AddrIn(to, n, p) == to[i].base + (p - Start(to, i)) && Within(to[i], AddrIn(to, n, p))
  {
    if p >= Start(to, n - 1) {
      i := n - 1;
    } else {
      i := Locate(to, n - 1, p);
    }
  }

  lemma {:induction false} AddrAt(to: seq<Iovec>, n: nat, i: nat, p: nat)
    requires i < n <= |to| && Start(to, i) <= p < Start(to, i + 1)
    ensures p < Start(to, n) && AddrIn(to, n, p) == to[i].base + (p - Start(to, i))
    decreases n
  {
    StartMono(to, i + 1, n);
    if i < n - 1 {
      StartMono(to, i + 1, n - 1);
      AddrAt(to, n - 1, i, p);
    }
  }

  /** Disjoint iovecs give every position its own address. */
  lemma {:induction false} AddrInjective(to: seq<Iovec>, p: nat, q: nat)
    requires Disjoint(to) && p < Total(to) && q < Total(to) && Addr(to, p) == Addr(to, q)
    ensures p == q
  {
    var i := Locate(to, |to|, p);
    var j := Locate(to, |to|, q);
    assert Within(to[i], Addr(to, p)) && Within(to[j], Addr(to, p));
    assert i == j;
  }

  lemma {:induction false} GatherAt(mem: seq<Byte>, to: seq<Iovec>, n: nat, p: nat)
    requires Fits(to, |mem|) && n <= |to|
    ensures |Gather(mem, to[..n])| == Start(to, n)
    ensures p < Start(to, n) ==> AddrIn(to, n, p) < |mem| && Gather(mem, to[..n])[p] == mem[AddrIn(to, n, p)]
  {
    if n > 0 {
      GatherAt(mem, to, n - 1, p);
      assert to[..n][..n - 1] == to[..n - 1] && to[..n][n - 1] == to[n - 1];
    }
  }

  lemma {:induction false} GatherIs(mem: seq<Byte>, to: seq<Iovec>, data: seq<Byte>)
    requires Fits(to, |mem|) && |data| == Total(to)
    requires forall p :: 0 <= p < Total(to) ==> Addr(to, p) < |mem| && mem[Addr(to, p)] == data[p]
    ensures Gather(mem, to) == data
  {
    assert to[..|to|] == to;
    GatherAt(mem, to, |to|, 0);
    forall p | 0 <= p < |data|
      ensures Gather(mem, to)[p] == data[p]
    {
      GatherAt(mem, to, |to|, p);
      assert Addr(to, p) < |mem|;
    }
  }

  // ---- What has been written so far ----

  /** Memory `mem` and the number of writes `w` to each address, at one destination position. */
  ghost predicate PosOk(mem: seq<Byte>, w: seq<nat>, to: seq<Iovec>, want: seq<Byte>, pend: set<nat>, p: nat)
    requires |mem| == |w| && p < Total(to)
  {
    && Addr(to, p) < |mem|
    && if p < |want| && p !in pend then w[Addr(to, p)] == 1 && mem[Addr(to, p)] == want[p] else w[Addr(to, p)] == 0
  }

  /**
   * The first |want| positions have been taken care of: each outside `pend` was written exactly once, with
   * the wanted byte, and nothing else was written; memory outside the destination is as it was.
   */
  ghost predicate Placed(mem: seq<Byte>, w: seq<nat>, to: seq<Iovec>, want: seq<Byte>, pend: set<nat>, orig: seq<Byte>)
  {
    && |mem| == |w| == |orig|
    && Fits(to, |mem|) && Disjoint(to) && |want| <= Total(to)
    && (forall p :: 0 <= p < Total(to) ==> PosOk(mem, w, to, want, pend, p))
    && (forall a :: 0 <= a < |mem| && Outside(to, a) ==> w[a] == 0 && mem[a] == orig[a])
  }

  ghost function Bumped(w: seq<nat>, addr: nat, n: nat): (r: seq<nat>)
    ensures |r| == |w|
    ensures forall a :: 0 <= a < |w| ==> r[a] == if addr <= a < addr + n then w[a] + 1 else w[a]
  {
    seq(|w|, a requires 0 <= a < |w| => if addr <= a < addr + n then w[a] + 1 else w[a])
  }

  /** Positions pos, pos + 1, ... of the destination lie side by side from address `addr`. */
  ghost predicate Run(to: seq<Iovec>, pos: nat, n: nat, addr: nat) {
    pos + n <= Total(to) && forall p :: pos <= p < pos + n ==> Addr(to, p) == addr + (p - pos)
  }

  /** Writing `data` to a run of positions that nobody has written completes them and disturbs no other. */
  lemma {:induction false} PutPlaced(mem: seq<Byte>, w: seq<nat>, to: seq<Iovec>, want: seq<Byte>, pend: set<nat>,
          orig: seq<Byte>, pos: nat, addr: nat, data: seq<Byte>, want': seq<Byte>, pend': set<nat>)
    requires Placed(mem, w, to, want, pend, orig) && Run(to, pos, |data|, addr) && addr + |data| <= |mem|
    requires forall p :: pos <= p < pos + |data| ==> p >= |want| || p in pend
    requires |want| <= |want'| <= Total(to) && want'[..|want|] == want
    requires want' == want || (pos <= |want| && |want'| <= pos + |data|)
    requires pos + |data| <= |want'| && want'[pos..pos + |data|] == data
    requires forall p :: p in pend' <==> p in pend && !(pos <= p < pos + |data|)
    ensures Placed(Overlay(mem, addr, data), Bumped(w, addr, |data|), to, want', pend', orig)
  {
    var mem', w' := Overlay(mem, addr, data), Bumped(w, addr, |data|);
    forall p | 0 <= p < Total(to)
      ensures PosOk(mem', w', to, want', pend', p)
    {
      assert PosOk(mem, w, to, want, pend, p);
      var a := Addr(to, p);
      if pos <= p < pos + |data| {
        assert want'[p] == want'[pos..pos + |data|][p - pos];
      } else {
        if addr <= a < addr + |data| {
          AddrInjective(to, p, pos + (a - addr));
        }
        assert p < |want| ==> want'[p] == want'[..|want|][p];
      }
    }
    forall a | 0 <= a < |mem| && Outside(to, a)
      ensures w'[a] == 0 && mem'[a] == orig[a]
    {
      if addr <= a < addr + |data| {
        var p := pos + (a - addr);
        assert Addr(to, p) == a;
        var i := Locate(to, |to|, p);
      }
    }
  }

  /** Leaving a block to a job: its positions are promised but not written. */
  lemma {:induction false} DeferPlaced(mem: seq<Byte>, w: seq<nat>, to: seq<Iovec>, want: seq<Byte>, pend: set<nat>,
          orig: seq<Byte>, more: seq<Byte>, pend': set<nat>)
    requires Placed(mem, w, to, want, pend, orig) && |want| + |more| <= Total(to)
    requires forall p :: p in pend' <==> p in pend || |want| <= p < |want| + |more|
    ensures Placed(mem, w, to, want + more, pend', orig)
  {
    forall p | 0 <= p < Total(to)
      ensures PosOk(mem, w, to, want + more, pend', p)
    {
      assert PosOk(mem, w, to, want, pend, p);
    }
  }

  ghost predicate Unwritten(w: seq<nat>) { forall a :: 0 <= a < |w| ==> w[a] == 0 }

  // ---- Imperative part ----

  /** The memory that the iovecs point into, with a history of how often each address was written. */
  class Memory {
    const bytes: array<Byte>
    ghost var writes: seq<nat>

    constructor (n: nat)
      ensures Valid() && bytes.Length == n && fresh(bytes) && Unwritten(writes)
    {
      bytes := new Byte[n];
      writes := seq(n, _ => 0);
    }

    ghost predicate Valid()
      reads this
    {
      |writes| == bytes.Length
    }

    /** The history of writes begins anew. */
    ghost method Forget()
      modifies this
      ensures Valid() && Unwritten(writes)
    {
      writes := seq(bytes.Length, _ => 0);
    }

    /** memcpy or memset to `addr`. */
    method Put(addr: nat, data: seq<Byte>)
      requires Valid() && addr + |data| <= bytes.Length
      modifies this, bytes
      ensures Valid()
      ensures bytes[..] == Overlay(old(bytes[..]), addr, data)
      ensures writes == Bumped(old(writes), addr, |data|)
    {
      forall k | 0 <= k < |data| {
        bytes[addr + k] := data[k];
      }
      writes := Bumped(writes, addr, |data|);
      assert bytes[..] == Overlay(old(bytes[..]), addr, data);
    }
  }

  /** The cursor (iovec index and offset in it) stands at position Start + offset. */
  predicate CursorOk(to: seq<Iovec>, index: nat, offset: nat) {
    && index <= |to|
    && (index < |to| ==> offset <= to[index].len)
    && (index == |to| ==> offset == 0)
  }

  function CursorPos(to: seq<Iovec>, index: nat, offset: nat): nat
    requires index <= |to|
  {
    Start(to, index) + offset
  }

  /** Step over used-up and empty iovecs. */
  method SkipUsed(to: seq<Iovec>, index: nat, offset: nat) returns (i: nat, o: nat)
    requires CursorOk(to, index, offset)
    ensures CursorOk(to, i, o) && CursorPos(to, i, o) == CursorPos(to, index, offset)
    ensures i < |to| ==> o < to[i].len
    ensures i == |to| <==> CursorPos(to, index, offset) == Total(to)
  {
    i, o := index, offset;
    while i < |to| && o >= to[i].len
      invariant CursorOk(to, i, o) && CursorPos(to, i, o) == CursorPos(to, index, offset)
      decreases |to| - i
    {
      o := o - to[i].len;
      i := i + 1;
    }
    if i < |to| {
      StartMono(to, i + 1, |to|);
    }
  }

  /** A stretch of one iovec is a run of positions. */
  lemma {:induction false} CursorRun(to: seq<Iovec>, index: nat, offset: nat, n: nat)
    requires index < |to| && offset + n <= to[index].len
    ensures Run(to, CursorPos(to, index, offset), n, to[index].base + offset)
  {
    StartMono(to, index + 1, |to|);
    var pos := CursorPos(to, index, offset);
    forall p | pos <= p < pos + n
      ensures Addr(to, p) == to[index].base + offset + (p - pos)
    {
      AddrAt(to, |to|, index, p);
    }
  }

  /** One memcpy of `transfer_async_block`: as much of the rest of `data` as fits into the current iovec. */
  method TransferChunk(m: Memory, to: seq<Iovec>, i: nat, o: nat, data: seq<Byte>, done: nat, ghost want: seq<Byte>,
          ghost pend: set<nat>, ghost orig: seq<Byte>)
    returns (chunk: nat)
    requires m.Valid() && i < |to| && o < to[i].len && done < |data| && CursorPos(to, i, o) == |want| + done
    requires Placed(m.bytes[..], m.writes, to, want + data[..done], pend, orig)
    requires forall p :: p in pend ==> p < |want|
    modifies m, m.bytes
    ensures m.Valid() && 0 < chunk <= |data| - done && o + chunk <= to[i].len
    ensures Placed(m.bytes[..], m.writes, to, want + data[..done + chunk], pend, orig)
  {
    chunk := Min(to[i].len - o, |data| - done);
    CursorRun(to, i, o, chunk);
    assert to[i].base + to[i].len <= m.bytes.Length;
    PutStep(m.bytes[..], m.writes, to, want, data, done, pend, orig, to[i].base + o, chunk);
    m.Put(to[i].base + o, data[done..done + chunk]);
  }

  /**
   * `transfer_async_block`: copy `data` to the destination at the cursor, across as many iovecs as it
   * takes. It fails exactly when the destination is too short, and never writes outside it.
   */
  method Transfer(m: Memory, to: seq<Iovec>, index: nat, offset: nat, data: seq<Byte>, ghost want: seq<Byte>,
          ghost pend: set<nat>, ghost orig: seq<Byte>)
    returns (ok: bool, i: nat, o: nat)
    requires m.Valid() && CursorOk(to, index, offset) && CursorPos(to, index, offset) == |want|
    requires Placed(m.bytes[..], m.writes, to, want, pend, orig)
    requires forall p :: p in pend ==> p < |want|
    modifies m, m.bytes
    ensures m.Valid() && ok == (|want| + |data| <= Total(to))
    ensures ok ==> CursorOk(to, i, o) && CursorPos(to, i, o) == |want| + |data|
    ensures ok ==> Placed(m.bytes[..], m.writes, to, want + data, pend, orig)
    ensures !ok ==> exists n :: 0 <= n < |data| && Placed(m.bytes[..], m.writes, to, want + data[..n], pend, orig)
  {
    i, o := index, offset;
    var done := 0;
    assert want + data[..0] == want;
    while done < |data|
      invariant done <= |data| && m.Valid() && CursorOk(to, i, o) && CursorPos(to, i, o) == |want| + done <= Total(to)
      invariant Placed(m.bytes[..], m.writes, to, want + data[..done], pend, orig)
      decreases |data| - done
    {
      i, o := SkipUsed(to, i, o);
      if i >= |to| {
        ok := false;
        return;
      }
      var chunk := TransferChunk(m, to, i, o, data, done, want, pend, orig);
      o := o + chunk;
      done := done + chunk;
      StartMono(to, i + 1, |to|);
    }
    assert data[..|data|] == data;
    ok := true;
  }

  lemma {:induction false} PutStep(mem: seq<Byte>, w: seq<nat>, to: seq<Iovec>, want: seq<Byte>, data: seq<Byte>,
          done: nat, pend: set<nat>, orig: seq<Byte>, addr: nat, chunk: nat)
    requires done + chunk <= |data| && Placed(mem, w, to, want + data[..done], pend, orig)
    requires Run(to, |want| + done, chunk, addr) && addr + chunk <= |mem|
    requires forall p :: p in pend ==> p < |want|
    ensures Placed(Overlay(mem, addr, data[done..done + chunk]), Bumped(w, addr, chunk), to,
                   want + data[..done + chunk], pend, orig)
  {
    var want0, want1 := want + data[..done], want + data[..done + chunk];
    assert want1[..|want0|] == want0;
    assert want1[|want0|..|want0| + chunk] == data[done..done + chunk];
    PutPlaced(mem, w, to, want0, pend, orig, |want0|, addr, data[done..done + chunk], want1, pend);
  }

  // ---- The block loop ----

  function JobBytes(job: Job): nat { job.pages * PAGE_SIZE }

  /** The bytes wanted for a block; what is wanted for an undecodable one does not matter. */
  ghost function WantBlock(lz4: Lz4, stored: seq<Byte>, bytes: nat): (r: seq<Byte>)
    ensures |r| == bytes
  {
    var d := Decode(lz4, stored, bytes);
    if d.Some? then d.value else Zeros(bytes)
  }

  ghost function Want(lz4: Lz4, req: Request, payload: seq<Byte>, n: nat): (r: seq<Byte>)
    requires n <= |req.blocks| && SizeUpTo(req, n) <= |payload|
    ensures |r| == BytesUpTo(req, n)
  {
    if n == 0 then []
    else Want(lz4, req, payload, n - 1) + WantBlock(lz4, Stored(req, payload, n - 1), BytesOf(req, n - 1))
  }

  /** A job writes a run of positions, and what it writes is what is wanted there. */
  ghost predicate JobOk(lz4: Lz4, to: seq<Iovec>, job: Job, pos: nat, want: seq<Byte>) {
    && pos + JobBytes(job) <= |want|
    && Run(to, pos, JobBytes(job), job.dst)
    && (RunJob(lz4, job).Some? ==> want[pos..pos + JobBytes(job)] == RunJob(lz4, job).value)
  }

  ghost predicate InJob(jobs: seq<Job>, jpos: seq<nat>, k: nat, p: nat)
    requires |jobs| == |jpos|
  {
    k < |jobs| && jpos[k] <= p < jpos[k] + JobBytes(jobs[k])
  }

  ghost function Range(a: nat, n: nat): (r: set<nat>)
    ensures forall p: nat :: p in r <==> a <= p < a + n
  {
    if n == 0 then {} else Range(a, n - 1) + {a + n - 1}
  }

  /** The positions left to jobs. */
  ghost function PendOf(jobs: seq<Job>, jpos: seq<nat>): set<nat>
    requires |jobs| == |jpos|
  {
    if jobs == [] then {}
    else
      var n := |jobs| - 1;
      PendOf(jobs[..n], jpos[..n]) + Range(jpos[n], JobBytes(jobs[n]))
  }

  lemma {:induction false} PendIn(jobs: seq<Job>, jpos: seq<nat>, p: nat)
    requires |jobs| == |jpos|
    ensures p in PendOf(jobs, jpos) <==> exists k: nat :: InJob(jobs, jpos, k, p)
  {
    if jobs != [] {
      var n := |jobs| - 1;
      PendIn(jobs[..n], jpos[..n], p);
      assert forall k: nat :: k < n ==> (InJob(jobs[..n], jpos[..n], k, p) <==> InJob(jobs, jpos, k, p));
      assert InJob(jobs, jpos, n, p) <==> p in Range(jpos[n], JobBytes(jobs[n]));
    }
  }

  ghost predicate JobsOk(lz4: Lz4, to: seq<Iovec>, jobs: seq<Job>, jpos: seq<nat>, want: seq<Byte>) {
    && |jobs| == |jpos|
    && (forall k :: 0 <= k < |jobs| ==> JobOk(lz4, to, jobs[k], jpos[k], want))
    && (forall k: nat, l: nat, p: nat :: k < l < |jobs| && InJob(jobs, jpos, k, p) ==> !InJob(jobs, jpos, l, p))
    && (forall k, l :: 0 <= k < l < |jobs| ==> jobs[k].blockIndex < jobs[l].blockIndex)
  }

  ghost predicate AllRun(lz4: Lz4, jobs: seq<Job>) { forall k :: 0 <= k < |jobs| ==> RunJob(lz4, jobs[k]).Some? }

  /** The variables of the loop: payload offset, output bytes, cursor and jobs. */
  datatype Progress = Progress(coff: nat, out: nat, index: nat, offset: nat, jobs: seq<Job>)

  ghost predicate CursorInv(req: Request, n: nat, c: Progress, payload: seq<Byte>) {
    && n <= |req.blocks| && |payload| == req.totalBytes
    && c.coff == SizeUpTo(req, n) <= |payload| && c.out == BytesUpTo(req, n) <= SIZE_MAX
    && CursorOk(req.to, c.index, c.offset) && CursorPos(req.to, c.index, c.offset) == c.out
    && (forall i :: 0 <= i < n ==> BlockValid(req, i))
    && (forall k :: 0 <= k < |c.jobs| ==> c.jobs[k].blockIndex < n)
  }

  /** No job is larger than a block may be. */
  ghost predicate AllSmall(jobs: seq<Job>) { forall k :: 0 <= k < |jobs| ==> jobs[k].pages <= MAX_BLOCK_PAGES }

  /** All jobs so far run exactly when all blocks so far decode, unless one is too large. */
  ghost predicate DecodeInv(lz4: Lz4, req: Request, payload: seq<Byte>, n: nat, jobs: seq<Job>)
    requires n <= |req.blocks| && SizeUpTo(req, n) <= |payload|
  {
    && (AllRun(lz4, jobs) ==> DecodeAll(lz4, req, payload, n) == Some(Want(lz4, req, payload, n)))
    && (DecodeAll(lz4, req, payload, n).Some? && AllSmall(jobs) ==> AllRun(lz4, jobs))
  }

  ghost predicate LoopInv(mem: seq<Byte>, w: seq<nat>, lz4: Lz4, req: Request, payload: seq<Byte>, n: nat, c: Progress,
          jpos: seq<nat>, orig: seq<Byte>)
  {
    && CursorInv(req, n, c, payload)
    && JobsOk(lz4, req.to, c.jobs, jpos, Want(lz4, req, payload, n))
    && Placed(mem, w, req.to, Want(lz4, req, payload, n), PendOf(c.jobs, jpos), orig)
    && DecodeInv(lz4, req, payload, n, c.jobs)
  }

  /** Memory outside the destination is as it was. */
  ghost predicate Untouched(mem: seq<Byte>, to: seq<Iovec>, orig: seq<Byte>) {
    |mem| == |orig| && forall a :: 0 <= a < |mem| && Outside(to, a) ==> mem[a] == orig[a]
  }

  /** The read ought to succeed: consistent metadata and decodable blocks. */
  ghost predicate Readable(lz4: Lz4, req: Request, payload: seq<Byte>) {
    Consistent(req) && DecodeAll(lz4, req, payload, |req.blocks|).Some?
  }

  lemma {:induction false} ReadableBlock(lz4: Lz4, req: Request, payload: seq<Byte>, i: nat)
    requires Readable(lz4, req, payload) && i < |req.blocks| && |payload| == req.totalBytes
    ensures BlockValid(req, i) && SizeUpTo(req, i + 1) <= req.totalBytes
    ensures BytesUpTo(req, i + 1) <= Total(req.to) && BytesUpTo(req, i + 1) <= SIZE_MAX
    ensures Decode(lz4, Stored(req, payload, i), BytesOf(req, i)).Some?
  {
    UpToMono(req, i + 1, |req.blocks|);
    DecodeAllPrefix(lz4, req, payload, i + 1, |req.blocks|);
  }

  lemma {:induction false} JobsOkLonger(lz4: Lz4, to: seq<Iovec>, jobs: seq<Job>, jpos: seq<nat>, want: seq<Byte>,
          more: seq<Byte>)
    requires JobsOk(lz4, to, jobs, jpos, want)
    ensures JobsOk(lz4, to, jobs, jpos, want + more)
  {
    forall k | 0 <= k < |jobs|
      ensures JobOk(lz4, to, jobs[k], jpos[k], want + more)
    {
      assert JobOk(lz4, to, jobs[k], jpos[k], want);
      assert (want + more)[jpos[k]..jpos[k] + JobBytes(jobs[k])] == want[jpos[k]..jpos[k] + JobBytes(jobs[k])];
    }
  }

  lemma {:induction false} PendBelow(lz4: Lz4, to: seq<Iovec>, jobs: seq<Job>, jpos: seq<nat>, want: seq<Byte>)
    requires JobsOk(lz4, to, jobs, jpos, want)
    ensures forall p :: p in PendOf(jobs, jpos) ==> p < |want|
  {
    forall p | p in PendOf(jobs, jpos)
      ensures p < |want|
    {
      PendIn(jobs, jpos, p);
      var k: nat :| InJob(jobs, jpos, k, p);
      assert JobOk(lz4, to, jobs[k], jpos[k], want);
    }
  }

  /** A block that breaks the metadata rules, does not fit, or does not decode makes the request unreadable. */
  lemma {:induction false} Unreadable(lz4: Lz4, req: Request, payload: seq<Byte>, i: nat)
    requires i < |req.blocks| && |payload| == req.totalBytes
    requires || !BlockValid(req, i) || SizeUpTo(req, i + 1) > req.totalBytes
             || BytesUpTo(req, i + 1) > Total(req.to) || BytesUpTo(req, i + 1) > SIZE_MAX
             || Decode(lz4, Stored(req, payload, i), BytesOf(req, i)).None?
    ensures !Readable(lz4, req, payload)
  {
    if Readable(lz4, req, payload) {
      ReadableBlock(lz4, req, payload, i);
    }
  }

  lemma {:induction false} InlineDecode(lz4: Lz4, req: Request, payload: seq<Byte>, i: nat, jobs: seq<Job>,
          data: seq<Byte>)
    requires i < |req.blocks| && SizeUpTo(req, i + 1) <= |payload| && DecodeInv(lz4, req, payload, i, jobs)
    requires Decode(lz4, Stored(req, payload, i), BytesOf(req, i)) == Some(data)
    ensures Want(lz4, req, payload, i + 1) == Want(lz4, req, payload, i) + data
    ensures DecodeInv(lz4, req, payload, i + 1, jobs)
  {
    assert WantBlock(lz4, Stored(req, payload, i), BytesOf(req, i)) == data;
    if DecodeAll(lz4, req, payload, i + 1).Some? {
      DecodeAllPrefix(lz4, req, payload, i, i + 1);
    }
  }

  /** The invariant after a block that was written at once. */
  lemma {:induction false} InlineNext(mem: seq<Byte>, w: seq<nat>, lz4: Lz4, req: Request, payload: seq<Byte>, i: nat,
          c: Progress, c': Progress, jpos: seq<nat>, orig: seq<Byte>, data: seq<Byte>)
    requires i < |req.blocks| && CursorInv(req, i, c, payload) && CursorInv(req, i + 1, c', payload)
    requires c'.jobs == c.jobs
    requires JobsOk(lz4, req.to, c.jobs, jpos, Want(lz4, req, payload, i)) && DecodeInv(lz4, req, payload, i, c.jobs)
    requires Decode(lz4, Stored(req, payload, i), BytesOf(req, i)) == Some(data)
    requires Placed(mem, w, req.to, Want(lz4, req, payload, i) + data, PendOf(c.jobs, jpos), orig)
    ensures LoopInv(mem, w, lz4, req, payload, i + 1, c', jpos, orig)
  {
    InlineDecode(lz4, req, payload, i, c.jobs, data);
    JobsOkLonger(lz4, req.to, c.jobs, jpos, Want(lz4, req, payload, i), data);
  }

  lemma {:induction false} PendMore(jobs: seq<Job>, jpos: seq<nat>, job: Job, pos: nat)
    requires |jobs| == |jpos|
    ensures forall p :: p in PendOf(jobs + [job], jpos + [pos]) <==>
              p in PendOf(jobs, jpos) || pos <= p < pos + JobBytes(job)
  {
    assert (jobs + [job])[..|jobs|] == jobs && (jpos + [pos])[..|jobs|] == jpos;
  }

  lemma {:induction false} JobsOkMore(lz4: Lz4, to: seq<Iovec>, jobs: seq<Job>, jpos: seq<nat>, want: seq<Byte>,
          more: seq<Byte>, job: Job)
    requires JobsOk(lz4, to, jobs, jpos, want) && |more| == JobBytes(job) && Run(to, |want|, |more|, job.dst)
    requires RunJob(lz4, job).Some? ==> more == RunJob(lz4, job).value
    requires forall k :: 0 <= k < |jobs| ==> jobs[k].blockIndex < job.blockIndex
    ensures JobsOk(lz4, to, jobs + [job], jpos + [|want|], want + more)
  {
    JobsOkLonger(lz4, to, jobs, jpos, want, more);
    var jobs', jpos' := jobs + [job], jpos + [|want|];
    assert (want + more)[|want|..|want| + |more|] == more;
    forall k | 0 <= k < |jobs'|
      ensures JobOk(lz4, to, jobs'[k], jpos'[k], want + more)
    {
      if k < |jobs| {
        assert JobOk(lz4, to, jobs[k], jpos[k], want + more);
      }
    }
    forall k: nat, l: nat, p: nat | k < l < |jobs'| && InJob(jobs', jpos', k, p)
      ensures !InJob(jobs', jpos', l, p)
    {
      assert JobOk(lz4, to, jobs[k], jpos[k], want) && InJob(jobs, jpos, k, p);
      assert l < |jobs| ==> !InJob(jobs, jpos, l, p);
    }
  }

  /** The invariant after a block that was left to a job. */
  lemma {:induction false} JobNext(mem: seq<Byte>, w: seq<nat>, lz4: Lz4, req: Request, payload: seq<Byte>, i: nat,
          c: Progress, c': Progress, jpos: seq<nat>, orig: seq<Byte>, job: Job)
    requires LoopInv(mem, w, lz4, req, payload, i, c, jpos, orig) && i < |req.blocks|
    requires CursorInv(req, i + 1, c', payload) && c'.jobs == c.jobs + [job]
    requires job == Job(Stored(req, payload, i), job.dst, PagesOf(req, i), i) && |job.src| < BytesOf(req, i)
    requires Run(req.to, c.out, BytesOf(req, i), job.dst)
    ensures LoopInv(mem, w, lz4, req, payload, i + 1, c', jpos + [c.out], orig)
  {
    var want, more := Want(lz4, req, payload, i), WantBlock(lz4, job.src, BytesOf(req, i));
    assert Want(lz4, req, payload, i + 1) == want + more;
    JobsOkMore(lz4, req.to, c.jobs, jpos, want, more, job);
    PendMore(c.jobs, jpos, job, c.out);
    DeferPlaced(mem, w, req.to, want, PendOf(c.jobs, jpos), orig, more, PendOf(c'.jobs, jpos + [c.out]));
    JobDecode(lz4, req, payload, i, c.jobs, job);
  }

  lemma {:induction false} JobDecode(lz4: Lz4, req: Request, payload: seq<Byte>, i: nat, jobs: seq<Job>, job: Job)
    requires i < |req.blocks| && SizeUpTo(req, i + 1) <= |payload| && BlockValid(req, i)
    requires DecodeInv(lz4, req, payload, i, jobs)
    requires job == Job(Stored(req, payload, i), job.dst, PagesOf(req, i), i) && |job.src| < BytesOf(req, i)
    ensures DecodeInv(lz4, req, payload, i + 1, jobs + [job])
  {
    var jobs' := jobs + [job];
    assert forall k :: 0 <= k < |jobs| ==> jobs'[k] == jobs[k];
    assert jobs'[|jobs|] == job;
    if AllRun(lz4, jobs') {
      assert RunJob(lz4, jobs'[|jobs|]).Some?;
      assert AllRun(lz4, jobs) by {
        assert forall k :: 0 <= k < |jobs| ==> RunJob(lz4, jobs'[k]).Some?;
      }
    }
    if DecodeAll(lz4, req, payload, i + 1).Some? && AllSmall(jobs') {
      DecodeAllPrefix(lz4, req, payload, i, i + 1);
      assert forall k :: 0 <= k < |jobs| ==> jobs'[k].pages <= MAX_BLOCK_PAGES;
      assert job.pages <= MAX_BLOCK_PAGES;
    }
  }

  lemma {:induction false} DirectCursor(req: Request, payload: seq<Byte>, i: nat, c: Progress, c': Progress, index: nat,
          offset: nat)
    requires CursorInv(req, i, c, payload) && i < |req.blocks| && !Rejects(req, i, c)
    requires index < |req.to| && CursorPos(req.to, index, offset) == c.out
    requires offset + BytesOf(req, i) <= req.to[index].len
    requires req.blocks[i].size < BytesOf(req, i)
    requires
      var size, bytes := req.blocks[i].size, BytesOf(req, i);
      var job := Job(payload[c.coff..c.coff + size], req.to[index].base + offset, PagesOf(req, i), i);
      c' == Progress(c.coff + size, c.out + bytes, index, offset + bytes, c.jobs + [job])
    ensures CursorInv(req, i + 1, c', payload)
  {
  }

  /** The same for the job that the loop builds for a block that fits into the current iovec. */
  lemma {:induction false} DirectNext(mem: seq<Byte>, w: seq<nat>, lz4: Lz4, req: Request, payload: seq<Byte>, i: nat,
          c: Progress, c': Progress, index: nat, offset: nat, jpos: seq<nat>, orig: seq<Byte>)
    requires LoopInv(mem, w, lz4, req, payload, i, c, jpos, orig) && i < |req.blocks| && !Rejects(req, i, c)
    requires index < |req.to| && CursorPos(req.to, index, offset) == c.out
    requires offset + BytesOf(req, i) <= req.to[index].len
    requires req.blocks[i].size < BytesOf(req, i)
    requires
      var size, bytes := req.blocks[i].size, BytesOf(req, i);
      var job := Job(payload[c.coff..c.coff + size], req.to[index].base + offset, PagesOf(req, i), i);
      c' == Progress(c.coff + size, c.out + bytes, index, offset + bytes, c.jobs + [job])
    ensures LoopInv(mem, w, lz4, req, payload, i + 1, c', jpos + [c.out], orig)
  {
    CursorRun(req.to, index, offset, BytesOf(req, i));
    DirectCursor(req, payload, i, c, c', index, offset);
    JobNext(mem, w, lz4, req, payload, i, c, c', jpos, orig, c'.jobs[|c.jobs|]);
  }

  /** The checks that the loop makes on a block before it looks at the destination. */
  predicate Rejects(req: Request, i: nat, c: Progress)
    requires i < |req.blocks|
  {
    var size, pages, bytes := req.blocks[i].size, PagesOf(req, i), BytesOf(req, i);
    || pages == 0 || (req.pagesPerBlock > 0 && pages > req.pagesPerBlock)
    || size > bytes + bytes / 255 + 16 || size > req.totalBytes - c.coff
    || c.out > SIZE_MAX - bytes
  }

  /** A compressed block that is larger than a block may be. */
  predicate TooLarge(req: Request, i: nat)
    requires i < |req.blocks|
  {
    PagesOf(req, i) > MAX_BLOCK_PAGES && 0 < req.blocks[i].size < BytesOf(req, i)
  }

  /** The bytes of a block that is not left to a job: zeros, a raw copy, or decoded into the scratch buffer. */
  method InlineBytes(lz4: Lz4, req: Request, payload: seq<Byte>, i: nat, coff: nat) returns (data: Option<seq<Byte>>)
    requires i < |req.blocks| && BlockValid(req, i) && coff == SizeUpTo(req, i) && SizeUpTo(req, i + 1) <= |payload|
    ensures data == if TooLarge(req, i) then None else Decode(lz4, Stored(req, payload, i), BytesOf(req, i))
  {
    var size, pages := req.blocks[i].size, PagesOf(req, i);
    var bytes := pages * PAGE_SIZE;
    var stored := payload[coff..coff + size];
    if size == 0 {
      data := Some(Zeros(bytes));
    } else if size == bytes {
      data := Some(stored);
    } else {
      data := DecompressBlock(lz4, stored, pages);
    }
  }

  lemma {:induction false} CursorNext(req: Request, i: nat, c: Progress, index: nat, offset: nat, payload: seq<Byte>)
    requires CursorInv(req, i, c, payload) && i < |req.blocks| && BlockValid(req, i)
    requires SizeUpTo(req, i + 1) <= |payload| && BytesUpTo(req, i + 1) <= SIZE_MAX
    requires CursorOk(req.to, index, offset) && CursorPos(req.to, index, offset) == BytesUpTo(req, i + 1)
    ensures CursorInv(req, i + 1, Progress(SizeUpTo(req, i + 1), BytesUpTo(req, i + 1), index, offset, c.jobs), payload)
  {
  }

  /** The decoded block `data` goes to the cursor. */
  method WriteBytes(m: Memory, lz4: Lz4, req: Request, payload: seq<Byte>, i: nat, c: Progress, index: nat, offset: nat,
          data: seq<Byte>, ghost jpos: seq<nat>, ghost orig: seq<Byte>)
    returns (ok: bool, c': Progress)
    requires m.Valid() && i < |req.blocks| && BlockValid(req, i) && SizeUpTo(req, i + 1) <= |payload|
    requires LoopInv(m.bytes[..], m.writes, lz4, req, payload, i, c, jpos, orig) && BytesUpTo(req, i + 1) <= SIZE_MAX
    requires CursorOk(req.to, index, offset) && CursorPos(req.to, index, offset) == c.out
    requires Decode(lz4, Stored(req, payload, i), BytesOf(req, i)) == Some(data)
    modifies m, m.bytes
    ensures m.Valid() && Untouched(m.bytes[..], req.to, orig)
    ensures ok ==> LoopInv(m.bytes[..], m.writes, lz4, req, payload, i + 1, c', jpos, orig) && c'.jobs == c.jobs
    ensures !ok ==> !Readable(lz4, req, payload)
  {
    c' := c;
    ghost var want := Want(lz4, req, payload, i);
    PendBelow(lz4, req.to, c.jobs, jpos, want);
    var index', offset';
    ok, index', offset' := Transfer(m, req.to, index, offset, data, want, PendOf(c.jobs, jpos), orig);
    if ok {
      c' := Progress(c.coff + req.blocks[i].size, c.out + |data|, index', offset', c.jobs);
      CursorNext(req, i, c, index', offset', payload);
      InlineNext(m.bytes[..], m.writes, lz4, req, payload, i, c, c', jpos, orig, data);
    } else {
      Unreadable(lz4, req, payload, i);
    }
  }

  /** The branches that write a block at once. */
  method WriteBlock(m: Memory, lz4: Lz4, req: Request, payload: seq<Byte>, i: nat, c: Progress, index: nat, offset: nat,
          ghost jpos: seq<nat>, ghost orig: seq<Byte>)
    returns (ok: bool, c': Progress)
    requires m.Valid() && i < |req.blocks| && BlockValid(req, i) && SizeUpTo(req, i + 1) <= |payload|
    requires LoopInv(m.bytes[..], m.writes, lz4, req, payload, i, c, jpos, orig) && BytesUpTo(req, i + 1) <= SIZE_MAX
    requires CursorOk(req.to, index, offset) && CursorPos(req.to, index, offset) == c.out
    modifies m, m.bytes
    ensures m.Valid() && Untouched(m.bytes[..], req.to, orig)
    ensures ok ==> LoopInv(m.bytes[..], m.writes, lz4, req, payload, i + 1, c', jpos, orig) && c'.jobs == c.jobs
    ensures ok ==> !TooLarge(req, i)
    ensures !ok ==> !Readable(lz4, req, payload) || TooLarge(req, i)
  {
    var data := InlineBytes(lz4, req, payload, i, c.coff);
    if data.Some? {
      ok, c' := WriteBytes(m, lz4, req, payload, i, c, index, offset, data.value, jpos, orig);
    } else {
      ok, c' := false, c;
      if !TooLarge(req, i) {
        Unreadable(lz4, req, payload, i);
      }
    }
  }

  lemma {:induction false} InvUntouched(mem: seq<Byte>, w: seq<nat>, lz4: Lz4, req: Request, payload: seq<Byte>, n: nat,
          c: Progress, jpos: seq<nat>, orig: seq<Byte>)
    requires LoopInv(mem, w, lz4, req, payload, n, c, jpos, orig)
    ensures Untouched(mem, req.to, orig)
  {
  }

  /** The checks of the loop on a block, and the step over used-up iovecs to where it goes. */
  method CheckBlock(lz4: Lz4, req: Request, payload: seq<Byte>, i: nat, c: Progress)
    returns (ok: bool, index: nat, offset: nat)
    requires i < |req.blocks| && CursorInv(req, i, c, payload)
    ensures ok ==> !Rejects(req, i, c) && BlockValid(req, i) && req.blocks[i].size <= BytesOf(req, i)
    ensures ok ==> SizeUpTo(req, i + 1) <= |payload| && BytesUpTo(req, i + 1) <= SIZE_MAX
    ensures ok ==> index < |req.to| && CursorOk(req.to, index, offset) && CursorPos(req.to, index, offset) == c.out
    ensures ok ==> offset < req.to[index].len
    ensures !ok ==> !Readable(lz4, req, payload)
  {
    ok, index, offset := false, 0, 0;
    if Rejects(req, i, c) {
      Unreadable(lz4, req, payload, i);
      return;
    }
    index, offset := SkipUsed(req.to, c.index, c.offset);
    if index >= |req.to| || req.blocks[i].size > BytesOf(req, i) {
      Unreadable(lz4, req, payload, i);
      return;
    }
    ok := true;
  }

  /** The branch that leaves a block which fits into the current iovec to a job. */
  method LeaveToJob(ghost mem: seq<Byte>, ghost w: seq<nat>, ghost lz4: Lz4, req: Request, payload: seq<Byte>, i: nat,
          c: Progress, index: nat, offset: nat, ghost jpos: seq<nat>, ghost orig: seq<Byte>)
    returns (c': Progress, ghost jpos': seq<nat>)
    requires LoopInv(mem, w, lz4, req, payload, i, c, jpos, orig) && i < |req.blocks| && !Rejects(req, i, c)
    requires index < |req.to| && CursorPos(req.to, index, offset) == c.out
    requires offset + BytesOf(req, i) <= req.to[index].len
    requires req.blocks[i].size < BytesOf(req, i)
    ensures LoopInv(mem, w, lz4, req, payload, i + 1, c', jpos', orig)
    ensures |c'.jobs| == |c.jobs| + 1 && c'.jobs[..|c.jobs|] == c.jobs
    ensures c'.jobs[|c.jobs|].blockIndex == i && c'.jobs[|c.jobs|].pages == PagesOf(req, i)
  {
    var size, bytes := req.blocks[i].size, BytesOf(req, i);
    var job := Job(payload[c.coff..c.coff + size], req.to[index].base + offset, PagesOf(req, i), i);
    c' := Progress(c.coff + size, c.out + bytes, index, offset + bytes, c.jobs + [job]);
    jpos' := jpos + [c.out];
    DirectNext(mem, w, lz4, req, payload, i, c, c', index, offset, jpos, orig);
  }

  // ---- Which blocks become jobs ----

  /** The destination of a block lies within iovec `k`. */
  ghost predicate InIovec(req: Request, i: nat, k: nat)
    requires i < |req.blocks|
  {
    k < |req.to| && Start(req.to, k) <= BytesUpTo(req, i) && BytesUpTo(req, i + 1) <= Start(req.to, k + 1)
  }

  ghost predicate InOneIovec(req: Request, i: nat)
    requires i < |req.blocks|
  {
    exists k: nat :: InIovec(req, i, k)
  }

  /** The block is left to a job: compressed or, with parallel zeroing, zero, and with one iovec for its destination. */
  ghost predicate Deferred(req: Request, i: nat, parallelZero: bool)
    requires i < |req.blocks|
  {
    var size := req.blocks[i].size;
    size < BytesOf(req, i) && (size > 0 || parallelZero) && InOneIovec(req, i)
  }

  /** A block larger than a block may be is refused unless it can be written without decompressing or a job. */
  ghost predicate Refused(req: Request, i: nat, parallelZero: bool)
    requires i < |req.blocks|
  {
    TooLarge(req, i) || (PagesOf(req, i) > MAX_BLOCK_PAGES && Deferred(req, i, parallelZero))
  }

  ghost predicate HasJob(jobs: seq<Job>, i: nat) { exists k :: 0 <= k < |jobs| && jobs[k].blockIndex == i }

  /** The jobs are those of the deferred blocks among the first `n`, and no other of these is refused. */
  ghost predicate JobsAre(req: Request, n: nat, jobs: seq<Job>, parallelZero: bool) {
    && n <= |req.blocks|
    && (forall i :: 0 <= i < n ==> (HasJob(jobs, i) <==> Deferred(req, i, parallelZero)))
    && (forall i :: 0 <= i < n && Refused(req, i, parallelZero) ==> Deferred(req, i, parallelZero))
    && (forall k :: 0 <= k < |jobs| ==>
          jobs[k].blockIndex < n && jobs[k].pages == PagesOf(req, jobs[k].blockIndex))
  }

  /** The test of the loop for a destination in one piece. */
  lemma {:induction false} FitsCurrent(req: Request, i: nat, index: nat, offset: nat)
    requires i < |req.blocks| && index < |req.to| && offset < req.to[index].len && BytesOf(req, i) > 0
    requires CursorPos(req.to, index, offset) == BytesUpTo(req, i)
    ensures BytesOf(req, i) <= req.to[index].len - offset <==> InOneIovec(req, i)
  {
    assert Start(req.to, index + 1) == Start(req.to, index) + req.to[index].len;
    assert BytesOf(req, i) <= req.to[index].len - offset <==> InIovec(req, i, index);
    if k: nat :| InIovec(req, i, k) {
      if k < index {
        StartMono(req.to, k + 1, index);
      } else if index < k {
        StartMono(req.to, index + 1, k);
      }
    }
  }

  lemma {:induction false} OneJobMore(req: Request, i: nat, jobs: seq<Job>, jobs': seq<Job>, parallelZero: bool)
    requires JobsAre(req, i, jobs, parallelZero) && i < |req.blocks| && Deferred(req, i, parallelZero)
    requires |jobs'| == |jobs| + 1 && jobs'[..|jobs|] == jobs
    requires jobs'[|jobs|].blockIndex == i && jobs'[|jobs|].pages == PagesOf(req, i)
    ensures JobsAre(req, i + 1, jobs', parallelZero)
  {
    assert forall k :: 0 <= k < |jobs| ==> jobs'[k] == jobs[k];
    forall j | 0 <= j <= i
      ensures HasJob(jobs', j) <==> Deferred(req, j, parallelZero)
    {
      if j < i && HasJob(jobs, j) {
        var k :| 0 <= k < |jobs| && jobs[k].blockIndex == j;
        assert jobs'[k].blockIndex == j;
      }
    }
  }

  lemma {:induction false} NoJobMore(req: Request, i: nat, jobs: seq<Job>, parallelZero: bool)
    requires JobsAre(req, i, jobs, parallelZero) && i < |req.blocks|
    requires !Deferred(req, i, parallelZero) && !TooLarge(req, i)
    ensures JobsAre(req, i + 1, jobs, parallelZero)
  {
  }

  /** No block is refused. */
  ghost predicate Permitted(req: Request, parallelZero: bool) {
    forall i :: 0 <= i < |req.blocks| ==> !Refused(req, i, parallelZero)
  }

  lemma {:induction false} SmallMeansPermitted(req: Request, jobs: seq<Job>, parallelZero: bool)
    requires JobsAre(req, |req.blocks|, jobs, parallelZero)
    ensures AllSmall(jobs) <==> Permitted(req, parallelZero)
  {
    if AllSmall(jobs) {
      forall i | 0 <= i < |req.blocks|
        ensures !Refused(req, i, parallelZero)
      {
        assert HasJob(jobs, i) <==> Deferred(req, i, parallelZero);
      }
    } else {
      var k :| 0 <= k < |jobs| && jobs[k].pages > MAX_BLOCK_PAGES;
      assert HasJob(jobs, jobs[k].blockIndex);
      assert Refused(req, jobs[k].blockIndex, parallelZero);
    }
  }

  /** The read is to succeed: a readable request with no block that is refused. */
  ghost predicate Accepts(lz4: Lz4, req: Request, payload: seq<Byte>, parallelZero: bool) {
    Readable(lz4, req, payload) && Permitted(req, parallelZero)
  }

  lemma {:induction false} LargeNotAccepted(lz4: Lz4, req: Request, payload: seq<Byte>, i: nat, parallelZero: bool)
    requires i < |req.blocks|
    ensures TooLarge(req, i) ==> !Accepts(lz4, req, payload, parallelZero)
  {
    assert TooLarge(req, i) ==> Refused(req, i, parallelZero);
  }

  /**
   * One pass of the block loop. It stops only at a block whose metadata, size or content makes the whole
   * request unreadable.
   */
  method ScatterBlock(m: Memory, lz4: Lz4, req: Request, payload: seq<Byte>, parallelZero: bool, i: nat, c: Progress,
          ghost jpos: seq<nat>, ghost orig: seq<Byte>)
    returns (ok: bool, c': Progress, ghost jpos': seq<nat>)
    requires m.Valid() && i < |req.blocks|
    requires LoopInv(m.bytes[..], m.writes, lz4, req, payload, i, c, jpos, orig)
    requires JobsAre(req, i, c.jobs, parallelZero)
    modifies m, m.bytes
    ensures m.Valid() && (!ok ==> Untouched(m.bytes[..], req.to, orig))
    ensures ok ==> LoopInv(m.bytes[..], m.writes, lz4, req, payload, i + 1, c', jpos', orig)
    ensures ok ==> JobsAre(req, i + 1, c'.jobs, parallelZero)
    ensures !ok ==> !Accepts(lz4, req, payload, parallelZero)
  {
    ghost var mem, w := m.bytes[..], m.writes;
    InvUntouched(mem, w, lz4, req, payload, i, c, jpos, orig);
    c', jpos' := c, jpos;
    var index, offset;
    ok, index, offset := CheckBlock(lz4, req, payload, i, c);
    if !ok {
      return;
    }
    var size, bytes := req.blocks[i].size, BytesOf(req, i);
    var direct := bytes <= req.to[index].len - offset;
    FitsCurrent(req, i, index, offset);
    if direct && size < bytes && (size > 0 || parallelZero) {
      c', jpos' := LeaveToJob(mem, w, lz4, req, payload, i, c, index, offset, jpos, orig);
      OneJobMore(req, i, c.jobs, c'.jobs, parallelZero);
    } else {
      ok, c' := WriteBlock(m, lz4, req, payload, i, c, index, offset, jpos, orig);
      if ok {
        NoJobMore(req, i, c.jobs, parallelZero);
      } else {
        LargeNotAccepted(lz4, req, payload, i, parallelZero);
      }
    }
  }

  /** The request checks made before any block is looked at. */
  predicate Acceptable(req: Request) {
    0 < |req.blocks| <= INT_MAX && req.totalBytes <= SIZE_MAX && req.nPages <= SIZE_MAX / PAGE_SIZE
  }

  /**
   * `process_encoded_async_read` up to the pool call: all blocks are either written or left to jobs, and the
   * payload and the destination are used up exactly; or the request is unreadable.
   */
  method Scatter(m: Memory, lz4: Lz4, req: Request, payload: seq<Byte>, parallelZero: bool)
    returns (ok: bool, jobs: seq<Job>, ghost jpos: seq<nat>)
    requires m.Valid() && Unwritten(m.writes) && Fits(req.to, m.bytes.Length) && Disjoint(req.to)
    requires |payload| == req.totalBytes
    modifies m, m.bytes
    ensures m.Valid() && Untouched(m.bytes[..], req.to, old(m.bytes[..]))
    ensures ok ==> Scattered(m.bytes[..], m.writes, lz4, req, payload, jobs, jpos, old(m.bytes[..]))
    ensures ok ==> JobsAre(req, |req.blocks|, jobs, parallelZero)
    ensures !ok ==> !Accepts(lz4, req, payload, parallelZero)
  {
    ok, jobs, jpos := false, [], [];
    if !Acceptable(req) {
      return;
    }
    ghost var orig := m.bytes[..];
    var c;
    LoopStart(orig, m.writes, lz4, req, payload, orig);
    ok, c, jpos := ScatterBlocks(m, lz4, req, payload, parallelZero, orig);
    if ok {
      InvUntouched(m.bytes[..], m.writes, lz4, req, payload, |req.blocks|, c, jpos, orig);
      var index, offset := SkipUsed(req.to, c.index, c.offset);
      jobs := c.jobs;
      ok := c.coff == req.totalBytes && index == |req.to| && offset == 0 && c.out == req.nPages * PAGE_SIZE;
      LoopEnd(m.bytes[..], m.writes, lz4, req, payload, c, jpos, orig);
    }
  }

  /** The loop over the blocks, from the start of the payload and of the destination. */
  method ScatterBlocks(m: Memory, lz4: Lz4, req: Request, payload: seq<Byte>, parallelZero: bool, ghost orig: seq<Byte>)
    returns (ok: bool, c: Progress, ghost jpos: seq<nat>)
    requires m.Valid() && LoopInv(m.bytes[..], m.writes, lz4, req, payload, 0, Progress(0, 0, 0, 0, []), [], orig)
    modifies m, m.bytes
    ensures m.Valid() && (!ok ==> Untouched(m.bytes[..], req.to, orig))
    ensures ok ==> LoopInv(m.bytes[..], m.writes, lz4, req, payload, |req.blocks|, c, jpos, orig)
    ensures ok ==> JobsAre(req, |req.blocks|, c.jobs, parallelZero)
    ensures !ok ==> !Accepts(lz4, req, payload, parallelZero)
  {
    ok, c, jpos := true, Progress(0, 0, 0, 0, []), [];
    for i := 0 to |req.blocks|
      invariant ok && m.Valid() && LoopInv(m.bytes[..], m.writes, lz4, req, payload, i, c, jpos, orig)
      invariant JobsAre(req, i, c.jobs, parallelZero)
    {
      ok, c, jpos := ScatterBlock(m, lz4, req, payload, parallelZero, i, c, jpos, orig);
      if !ok {
        return;
      }
    }
  }

  lemma {:induction false} LoopStart(mem: seq<Byte>, w: seq<nat>, lz4: Lz4, req: Request, payload: seq<Byte>,
          orig: seq<Byte>)
    requires Fits(req.to, |mem|) && Disjoint(req.to) && mem == orig && |w| == |mem| && Unwritten(w)
    requires |payload| == req.totalBytes
    ensures LoopInv(mem, w, lz4, req, payload, 0, Progress(0, 0, 0, 0, []), [], orig)
  {
    NothingPlaced(mem, w, req.to, orig);
  }

  lemma {:induction false} LoopEnd(mem: seq<Byte>, w: seq<nat>, lz4: Lz4, req: Request, payload: seq<Byte>, c: Progress,
          jpos: seq<nat>, orig: seq<Byte>)
    requires LoopInv(mem, w, lz4, req, payload, |req.blocks|, c, jpos, orig) && Acceptable(req)
    ensures c.coff == req.totalBytes && c.out == Total(req.to) == req.nPages * PAGE_SIZE ==>
              Scattered(mem, w, lz4, req, payload, c.jobs, jpos, orig)
    ensures !(c.coff == req.totalBytes && c.out == Total(req.to) == req.nPages * PAGE_SIZE) ==>
              !Readable(lz4, req, payload)
  {
  }

  ghost predicate Scattered(mem: seq<Byte>, w: seq<nat>, lz4: Lz4, req: Request, payload: seq<Byte>, jobs: seq<Job>,
          jpos: seq<nat>, orig: seq<Byte>)
  {
    && Consistent(req) && |payload| == req.totalBytes
    && JobsOk(lz4, req.to, jobs, jpos, Want(lz4, req, payload, |req.blocks|))
    && Placed(mem, w, req.to, Want(lz4, req, payload, |req.blocks|), PendOf(jobs, jpos), orig)
    && DecodeInv(lz4, req, payload, |req.blocks|, jobs)
  }

  lemma {:induction false} NothingPlaced(mem: seq<Byte>, w: seq<nat>, to: seq<Iovec>, orig: seq<Byte>)
    requires Fits(to, |mem|) && Disjoint(to) && mem == orig && |w| == |mem| && Unwritten(w)
    ensures Placed(mem, w, to, [], {}, orig)
  {
    forall p | 0 <= p < Total(to)
      ensures PosOk(mem, w, to, [], {}, p)
    {
      var i := Locate(to, |to|, p);
    }
  }

  // ---- Running the jobs ----

  /** What the queue needs to know about the jobs. */
  function QueueJobs(lz4: Lz4, jobs: seq<Job>): (r: seq<JobQueue.Job>)
    ensures |r| == |jobs|
    ensures forall k :: 0 <= k < |jobs| ==> r[k] == JobQueue.Job(jobs[k].blockIndex, RunJob(lz4, jobs[k]).Some?)
  {
    seq(|jobs|, k requires 0 <= k < |jobs| => JobQueue.Job(jobs[k].blockIndex, RunJob(lz4, jobs[k]).Some?))
  }

  /** An order in which a pool may have run the jobs: none twice, and all of them when none fails. */
  ghost predicate PoolLog(lz4: Lz4, jobs: seq<Job>, log: seq<nat>) {
    && (forall k :: 0 <= k < |log| ==> log[k] < |jobs|)
    && (forall k, l :: 0 <= k < l < |log| ==> log[k] != log[l])
    && (AllRun(lz4, jobs) ==> JobQueue.RunsEachOnce(log, |jobs|))
  }

  /** `r` is what some run of the pool reports for these jobs. */
  ghost predicate Reports(lz4: Lz4, jobs: seq<Job>, r: DecompressionPool.BatchResult) {
    && r.jobs == QueueJobs(lz4, jobs)
    && exists run: seq<DecompressionPool.Pool>, k: nat ::
         DecompressionPool.IsRun(run) && k < |run| && r in run[k].results
  }

  /** However the workers of the pool interleave, the order is such a one and a failure is reported if there is one. */
  lemma {:induction false} ReportIsPoolLog(lz4: Lz4, jobs: seq<Job>, r: DecompressionPool.BatchResult)
    requires Reports(lz4, jobs, r)
    ensures PoolLog(lz4, jobs, r.log) && (r.failed <==> !AllRun(lz4, jobs))
  {
    var run: seq<DecompressionPool.Pool>, k: nat :|
      DecompressionPool.IsRun(run) && k < |run| && r in run[k].results;
    DecompressionPool.BatchesMatchSerial(run, k);
    var b :| 0 <= b < |run[k].results| && run[k].results[b] == r;
    assert JobQueue.RunsAtMostOnce(run[k].results[b].log, |run[k].results[b].jobs|);
  }

  /** Some run of a pool of any size reports these jobs. */
  lemma {:induction false} SomeReport(lz4: Lz4, jobs: seq<Job>, workers: nat) returns (r: DecompressionPool.BatchResult)
    requires workers > 0
    ensures Reports(lz4, jobs, r)
  {
    var run := PoolProgress.SomeRunReports(QueueJobs(lz4, jobs), workers);
    var k := |run| - 1;
    r := run[k].results[0];
    assert r in run[k].results;
  }

  /** How the jobs are run: in the caller alone, or by the pool with the given report. */
  datatype PoolCall = Serial | Pooled(report: DecompressionPool.BatchResult)

  /** `decompress_jobs_parallel_pool_with_caller_work`: the order in which the jobs run, and the return value. */
  method DecompressJobs(lz4: Lz4, jobs: seq<Job>, call: PoolCall) returns (ok: bool, log: seq<nat>)
    requires call.Pooled? ==> Reports(lz4, jobs, call.report)
    ensures PoolLog(lz4, jobs, log) && (ok <==> AllRun(lz4, jobs))
  {
    if jobs == [] {
      return true, [];
    }
    match call {
      case Serial =>
        var failed, _, order := JobQueue.RunSerial(QueueJobs(lz4, jobs));
        ok, log := !failed, order;
        assert ok <==> AllRun(lz4, jobs);
      case Pooled(r) =>
        ReportIsPoolLog(lz4, jobs, r);
        ok, log := !r.failed, r.log;
    }
  }

  /** The positions of job `k` are all in `left`. */
  ghost predicate Waiting(jobs: seq<Job>, jpos: seq<nat>, k: nat, left: set<nat>)
    requires |jobs| == |jpos|
  {
    forall p: nat :: InJob(jobs, jpos, k, p) ==> p in left
  }

  lemma {:induction false} RunOne(mem: seq<Byte>, w: seq<nat>, lz4: Lz4, to: seq<Iovec>, jobs: seq<Job>, jpos: seq<nat>,
          want: seq<Byte>, left: set<nat>, orig: seq<Byte>, k: nat)
    requires JobsOk(lz4, to, jobs, jpos, want) && Placed(mem, w, to, want, left, orig)
    requires k < |jobs| && RunJob(lz4, jobs[k]).Some? && Waiting(jobs, jpos, k, left)
    ensures var data := RunJob(lz4, jobs[k]).value;
            && jobs[k].dst + |data| <= |mem|
            && Placed(Overlay(mem, jobs[k].dst, data), Bumped(w, jobs[k].dst, |data|), to, want,
                      left - Range(jpos[k], |data|), orig)
  {
    var data := RunJob(lz4, jobs[k]).value;
    assert JobOk(lz4, to, jobs[k], jpos[k], want);
    var last := jpos[k] + |data| - 1;
    assert PosOk(mem, w, to, want, left, last);
    assert Addr(to, last) == jobs[k].dst + |data| - 1;
    forall p | jpos[k] <= p < jpos[k] + |data|
      ensures p in left
    {
      assert InJob(jobs, jpos, k, p);
    }
    assert want[..|want|] == want;
    PutPlaced(mem, w, to, want, left, orig, jpos[k], jobs[k].dst, data, want, left - Range(jpos[k], |data|));
  }

  /** One participant runs job `k`: a failing job writes nothing that is relied on. */
  method RunJobAt(m: Memory, lz4: Lz4, to: seq<Iovec>, jobs: seq<Job>, k: nat, ghost jpos: seq<nat>,
          ghost want: seq<Byte>, ghost left: set<nat>, ghost orig: seq<Byte>)
    requires m.Valid() && JobsOk(lz4, to, jobs, jpos, want) && k < |jobs| && Waiting(jobs, jpos, k, left)
    requires Placed(m.bytes[..], m.writes, to, want, left, orig)
    modifies m, m.bytes
    ensures m.Valid()
    ensures Placed(m.bytes[..], m.writes, to, want,
                   if RunJob(lz4, jobs[k]).Some? then left - Range(jpos[k], JobBytes(jobs[k])) else left, orig)
  {
    var r := RunJob(lz4, jobs[k]);
    if r.Some? {
      RunOne(m.bytes[..], m.writes, lz4, to, jobs, jpos, want, left, orig, k);
      m.Put(jobs[k].dst, r.value);
    }
  }

  /** `left` covers the jobs still to run, and none of those that have run when all run. */
  ghost predicate LeftOk(lz4: Lz4, jobs: seq<Job>, jpos: seq<nat>, log: seq<nat>, n: nat, left: set<nat>)
    requires |jobs| == |jpos|
  {
    && n <= |log| && left <= PendOf(jobs, jpos)
    && (forall k :: n <= k < |log| ==> Waiting(jobs, jpos, log[k], left))
    && (AllRun(lz4, jobs) ==> forall k, p: nat :: 0 <= k < n && InJob(jobs, jpos, log[k], p) ==> p !in left)
  }

  lemma {:induction false} LeftStart(lz4: Lz4, jobs: seq<Job>, jpos: seq<nat>, log: seq<nat>)
    requires |jobs| == |jpos|
    ensures LeftOk(lz4, jobs, jpos, log, 0, PendOf(jobs, jpos))
  {
    forall p: nat
      ensures p in PendOf(jobs, jpos) <==> exists k: nat :: InJob(jobs, jpos, k, p)
    {
      PendIn(jobs, jpos, p);
    }
  }

  lemma {:induction false} LeftNext(lz4: Lz4, to: seq<Iovec>, jobs: seq<Job>, jpos: seq<nat>, want: seq<Byte>,
          log: seq<nat>, n: nat, left: set<nat>)
    requires JobsOk(lz4, to, jobs, jpos, want) && PoolLog(lz4, jobs, log) && n < |log|
    requires LeftOk(lz4, jobs, jpos, log, n, left)
    ensures LeftOk(lz4, jobs, jpos, log, n + 1,
                   if RunJob(lz4, jobs[log[n]]).Some? then left - Range(jpos[log[n]], JobBytes(jobs[log[n]])) else left)
  {
    var left' := RemoveJob(lz4, to, jobs, jpos, want, left, log, n);
  }

  lemma {:induction false} NothingLeft(lz4: Lz4, jobs: seq<Job>, jpos: seq<nat>, log: seq<nat>, left: set<nat>)
    requires |jobs| == |jpos| && LeftOk(lz4, jobs, jpos, log, |log|, left)
    requires AllRun(lz4, jobs) && JobQueue.RunsEachOnce(log, |jobs|)
    ensures left == {}
  {
    forall p: nat
      ensures p !in left
    {
      if p in PendOf(jobs, jpos) {
        PendIn(jobs, jpos, p);
        var k: nat :| InJob(jobs, jpos, k, p);
        assert k in log;
      }
    }
  }

  /** The pool's participants run the jobs in the order `log`; each writes its own part of the destination. */
  method RunJobs(m: Memory, lz4: Lz4, req: Request, payload: seq<Byte>, jobs: seq<Job>, log: seq<nat>,
          ghost jpos: seq<nat>, ghost orig: seq<Byte>)
    requires m.Valid() && Scattered(m.bytes[..], m.writes, lz4, req, payload, jobs, jpos, orig)
    requires PoolLog(lz4, jobs, log)
    modifies m, m.bytes
    ensures m.Valid() && Untouched(m.bytes[..], req.to, orig)
    ensures AllRun(lz4, jobs) ==> Placed(m.bytes[..], m.writes, req.to, Want(lz4, req, payload, |req.blocks|), {}, orig)
  {
    ghost var want := Want(lz4, req, payload, |req.blocks|);
    ghost var left := PendOf(jobs, jpos);
    LeftStart(lz4, jobs, jpos, log);
    var n := 0;
    while n < |log|
      invariant m.Valid() && LeftOk(lz4, jobs, jpos, log, n, left)
      invariant Placed(m.bytes[..], m.writes, req.to, want, left, orig)
    {
      assert Waiting(jobs, jpos, log[n], left);
      RunJobAt(m, lz4, req.to, jobs, log[n], jpos, want, left, orig);
      LeftNext(lz4, req.to, jobs, jpos, want, log, n, left);
      left := if RunJob(lz4, jobs[log[n]]).Some? then left - Range(jpos[log[n]], JobBytes(jobs[log[n]])) else left;
      n := n + 1;
    }
    if AllRun(lz4, jobs) {
      NothingLeft(lz4, jobs, jpos, log, left);
    }
  }

  /** Taking one job's positions out leaves those of every other job. */
  lemma {:induction false} RemoveJob(lz4: Lz4, to: seq<Iovec>, jobs: seq<Job>, jpos: seq<nat>, want: seq<Byte>,
          left: set<nat>, log: seq<nat>, n: nat)
    returns (left': set<nat>)
    requires JobsOk(lz4, to, jobs, jpos, want) && n < |log| && (forall k :: 0 <= k < |log| ==> log[k] < |jobs|)
    requires forall k, l :: 0 <= k < l < |log| ==> log[k] != log[l]
    requires forall k :: n <= k < |log| ==> Waiting(jobs, jpos, log[k], left)
    ensures left' == left - Range(jpos[log[n]], JobBytes(jobs[log[n]]))
    ensures forall k :: n < k < |log| ==> Waiting(jobs, jpos, log[k], left')
    ensures forall p: nat :: InJob(jobs, jpos, log[n], p) ==> p !in left'
  {
    left' := left - Range(jpos[log[n]], JobBytes(jobs[log[n]]));
    forall k, p: nat | n < k < |log| && InJob(jobs, jpos, log[k], p)
      ensures p in left'
    {
      assert Waiting(jobs, jpos, log[k], left);
      assert !InJob(jobs, jpos, log[n], p);
    }
  }

  lemma {:induction false} AllWritten(mem: seq<Byte>, w: seq<nat>, to: seq<Iovec>, want: seq<Byte>, orig: seq<Byte>)
    requires Placed(mem, w, to, want, {}, orig) && |want| == Total(to)
    ensures Gather(mem, to) == want
    ensures forall a :: 0 <= a < |mem| ==> w[a] == if Outside(to, a) then 0 else 1
  {
    forall p | 0 <= p < Total(to)
      ensures Addr(to, p) < |mem| && mem[Addr(to, p)] == want[p]
    {
      assert PosOk(mem, w, to, want, {}, p);
    }
    GatherIs(mem, to, want);
    forall a | 0 <= a < |mem| && !Outside(to, a)
      ensures w[a] == 1
    {
      var i :| 0 <= i < |to| && Within(to[i], a);
      var p := Start(to, i) + (a - to[i].base);
      AddrAt(to, |to|, i, p);
      assert PosOk(mem, w, to, want, {}, p);
    }
  }

  method ReadPayload(m: Memory, lz4: Lz4, req: Request, payload: seq<Byte>, parallelZero: bool,
          pool: seq<Job> -> PoolCall)
    returns (ok: bool)
    requires m.Valid() && Unwritten(m.writes) && Fits(req.to, m.bytes.Length) && Disjoint(req.to)
    requires |payload| == req.totalBytes
    requires forall jobs :: pool(jobs).Pooled? ==> Reports(lz4, jobs, pool(jobs).report)
    modifies m, m.bytes
    ensures m.Valid() && Untouched(m.bytes[..], req.to, old(m.bytes[..]))
    ensures ok <==> Accepts(lz4, req, payload, parallelZero)
    ensures ok ==> DecodeAll(lz4, req, payload, |req.blocks|) == Some(Gather(m.bytes[..], req.to))
    ensures ok ==> forall a :: 0 <= a < m.bytes.Length ==> m.writes[a] == if Outside(req.to, a) then 0 else 1
  {
    var jobs; ghost var jpos;
    ok, jobs, jpos := Scatter(m, lz4, req, payload, parallelZero);
    if !ok {
      return;
    }
    SmallMeansPermitted(req, jobs, parallelZero);
    var log;
    ok, log := DecompressJobs(lz4, jobs, pool(jobs));
    RunJobs(m, lz4, req, payload, jobs, log, jpos, old(m.bytes[..]));
    if ok {
      AllWritten(m.bytes[..], m.writes, req.to, Want(lz4, req, payload, |req.blocks|), old(m.bytes[..]));
    }
  }

  /**
   * The whole encoded read. It succeeds exactly when the metadata are consistent, every block decodes and none is
   * refused for its size. Then every block is decoded to its own place in the destination, every byte of that
   * was written exactly once, and nothing else was written, whatever iovecs the request has and whatever order
   * the pool runs its jobs in.
   */
  method Read(m: Memory, lz4: Lz4, req: Request, payload: Option<seq<Byte>>, parallelZero: bool,
          pool: seq<Job> -> PoolCall)
    returns (ok: bool)
    requires m.Valid() && Unwritten(m.writes) && Fits(req.to, m.bytes.Length) && Disjoint(req.to)
    requires payload.Some? ==> |payload.value| == req.totalBytes
    requires forall jobs :: pool(jobs).Pooled? ==> Reports(lz4, jobs, pool(jobs).report)
    modifies m, m.bytes
    ensures m.Valid() && Untouched(m.bytes[..], req.to, old(m.bytes[..]))
    ensures ok <==>
              && payload.Some? && Consistent(req) && Permitted(req, parallelZero)
              && forall i :: 0 <= i < |req.blocks| ==> BlockDecodes(lz4, req, payload.value, i)
    ensures ok ==> Restored(lz4, req, payload.value, Gather(m.bytes[..], req.to))
    ensures ok ==> DecodeAll(lz4, req, payload.value, |req.blocks|) == Some(Gather(m.bytes[..], req.to))
    ensures ok ==> forall a :: 0 <= a < m.bytes.Length ==> m.writes[a] == if Outside(req.to, a) then 0 else 1
  {
    if payload.None? {
      return false;
    }
    DecodeAllMeans(lz4, req, payload.value);
    ok := ReadPayload(m, lz4, req, payload.value, parallelZero, pool);
  }
}
