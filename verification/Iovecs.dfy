/** Vectors of memory ranges (`struct iovec`) and the one stream of bytes that they stand for. */
module Iovecs {
  import opened Common

  datatype Iovec = Iovec(base: nat, len: nat)

  /** All ranges lie within a memory of that size. */
  ghost predicate Fits(v: seq<Iovec>, size: nat) { forall i :: 0 <= i < |v| ==> v[i].base + v[i].len <= size }

  /** The position in the stream at which entry `i` starts. */
  function Start(v: seq<Iovec>, i: nat): nat
    requires i <= |v|
  {
    if i == 0 then 0 else Start(v, i - 1) + v[i - 1].len
  }

  function Total(v: seq<Iovec>): nat { Start(v, |v|) }

  function Bytes(m: seq<Byte>, x: Iovec): seq<Byte>
    requires x.base + x.len <= |m|
  {
    m[x.base..x.base + x.len]
  }

  /** The ranges of memory one after the other. */
  function Gather(m: seq<Byte>, v: seq<Iovec>): seq<Byte>
    requires Fits(v, |m|)
  {
    if v == [] then [] else Gather(m, v[..|v| - 1]) + Bytes(m, v[|v| - 1])
  }

  lemma {:induction false} StartMono(v: seq<Iovec>, i: nat, j: nat)
    requires i <= j <= |v|
    ensures Start(v, i) <= Start(v, j)
    decreases j
  {
    if i < j {
      StartMono(v, i, j - 1);
    }
  }

  lemma {:induction false} StartPrefix(v: seq<Iovec>, n: nat, i: nat)
    requires i <= n <= |v|
    ensures Start(v[..n], i) == Start(v, i)
  {
    if i > 0 {
      StartPrefix(v, n, i - 1);
    }
  }

  lemma {:induction false} GatherLength(m: seq<Byte>, v: seq<Iovec>)
    requires Fits(v, |m|)
    ensures |Gather(m, v)| == Total(v)
  {
    if v != [] {
      GatherLength(m, v[..|v| - 1]);
      StartPrefix(v, |v| - 1, |v| - 1);
    }
  }

  lemma {:induction false} DropConcat(a: seq<Byte>, b: seq<Byte>, n: nat)
    requires n <= |a|
    ensures (a + b)[n..] == a[n..] + b
  {
  }

  lemma {:induction false} DropDrop(a: seq<Byte>, n: nat, k: nat)
    requires n + k <= |a|
    ensures a[n..][k..] == a[n + k..]
  {
  }

  /** Leaving out the first `k` entries leaves out exactly their bytes. */
  lemma {:induction false} GatherDrop(m: seq<Byte>, v: seq<Iovec>, k: nat)
    requires Fits(v, |m|) && k <= |v|
    ensures |Gather(m, v)| == Total(v) && Start(v, k) <= Total(v)
    ensures Gather(m, v[k..]) == Gather(m, v)[Start(v, k)..]
    decreases |v|
  {
    GatherLength(m, v);
    StartMono(v, k, |v|);
    if k < |v| {
      var n := |v| - 1;
      var front, last := v[..n], Bytes(m, v[n]);
      GatherDrop(m, front, k);
      StartPrefix(v, n, k);
      assert v[k..][..n - k] == front[k..] && v[k..][n - k] == v[n];
      DropConcat(Gather(m, front), last, Start(v, k));
    }
  }

  lemma {:induction false} GatherCons(m: seq<Byte>, x: Iovec, v: seq<Iovec>)
    requires x.base + x.len <= |m| && Fits(v, |m|)
    ensures Fits([x] + v, |m|) && Gather(m, [x] + v) == Bytes(m, x) + Gather(m, v)
  {
    var all := [x] + v;
    assert all[|v|] == if v == [] then x else v[|v| - 1];
    if v == [] {
      assert all[..0] == [];
    } else {
      var front := v[..|v| - 1];
      assert all[..|v|] == [x] + front;
      GatherCons(m, x, front);
      assert Bytes(m, x) + Gather(m, front) + Bytes(m, v[|v| - 1]) == Bytes(m, x) + Gather(m, v);
    }
  }

  /** An entry shortened from the left by `off` bytes. */
  function Skip(x: Iovec, off: nat): Iovec
    requires off <= x.len
  {
    Iovec(x.base + off, x.len - off)
  }

  lemma {:induction false} GatherSkipFirst(m: seq<Byte>, x: Iovec, rest: seq<Iovec>, off: nat)
    requires x.base + x.len <= |m| && Fits(rest, |m|) && off <= x.len
    ensures Fits([x] + rest, |m|) && Fits([Skip(x, off)] + rest, |m|) && x.len <= |Gather(m, [x] + rest)|
    ensures Gather(m, [Skip(x, off)] + rest) == Gather(m, [x] + rest)[off..]
  {
    GatherCons(m, x, rest);
    GatherCons(m, Skip(x, off), rest);
    assert Bytes(m, Skip(x, off)) == Bytes(m, x)[off..];
    DropConcat(Bytes(m, x), Gather(m, rest), off);
  }

  /** Leaving out the first entries and a beginning of the next. */
  lemma {:induction false} GatherSkip(m: seq<Byte>, v: seq<Iovec>, k: nat, off: nat)
    requires Fits(v, |m|) && k < |v| && off <= v[k].len
    ensures Fits(v[k := Skip(v[k], off)][k..], |m|) && Start(v, k) + off <= |Gather(m, v)|
    ensures Gather(m, v[k := Skip(v[k], off)][k..]) == Gather(m, v)[Start(v, k) + off..]
  {
    var x, rest := Skip(v[k], off), v[k + 1..];
    assert v[k..] == [v[k]] + rest && v[k := x][k..] == [x] + rest;
    GatherSkipFirst(m, v[k], rest, off);
    GatherDrop(m, v, k);
    DropDrop(Gather(m, v), Start(v, k), off);
  }
}
