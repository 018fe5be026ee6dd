/**
 * Which of several targets with the same descriptor number an epoll entry means
 * (criu/eventpoll.c:193-213, 287-304): entries are sorted by number, numbered within
 * each run, and sorted back into the order they came in.
 */
module EpollOffsets {
  datatype Toff = Toff(idx: nat, tfd: int, off: nat)

  /** The two comparison functions. */
  predicate Leq(byIdx: bool, a: Toff, b: Toff) {
    if byIdx then a.idx <= b.idx else a.tfd < b.tfd || (a.tfd == b.tfd && a.idx <= b.idx)
  }

  ghost predicate Sorted(s: seq<Toff>, byIdx: bool) {
    forall i, j :: 0 <= i < j < |s| ==> Leq(byIdx, s[i], s[j])
  }

  /** A permutation and its inverse. */
  ghost predicate IsPerm(perm: seq<nat>, inv: seq<nat>, n: nat) {
    && |perm| == |inv| == n
    && (forall i :: 0 <= i < n ==> perm[i] < n && inv[perm[i]] == i)
    && (forall i :: 0 <= i < n ==> inv[i] < n && perm[inv[i]] == i)
  }

  ghost predicate Permuted(now: seq<Toff>, was: seq<Toff>, perm: seq<nat>, inv: seq<nat>) {
    |now| == |was| && IsPerm(perm, inv, |was|) && forall i :: 0 <= i < |was| ==> now[i] == was[perm[i]]
  }

  /** Two entries exchanged. */
  lemma {:induction false} Exchange(now: seq<Toff>, was: seq<Toff>, perm: seq<nat>, inv: seq<nat>, j: nat)
    returns (perm': seq<nat>, inv': seq<nat>)
    requires Permuted(now, was, perm, inv) && 0 < j < |now|
    ensures Permuted(now[j - 1 := now[j]][j := now[j - 1]], was, perm', inv')
  {
    inv' := inv[perm[j] := j - 1][perm[j - 1] := j];
    perm' := perm[j := perm[j - 1]][j - 1 := perm[j]];
  }

  /** Entry `i` moved down to its place among the sorted ones before it. */
  method Sink(a: array<Toff>, byIdx: bool, i: nat, ghost was: seq<Toff>, ghost perm: seq<nat>, ghost inv: seq<nat>)
    returns (ghost perm': seq<nat>, ghost inv': seq<nat>)
    requires i < a.Length && Sorted(a[..i], byIdx) && Permuted(a[..], was, perm, inv)
    modifies a
    ensures Sorted(a[..i + 1], byIdx) && Permuted(a[..], was, perm', inv')
  {
    perm', inv' := perm, inv;
    var j := i;
    while j > 0 && !Leq(byIdx, a[j - 1], a[j])
      invariant 0 <= j <= i && Permuted(a[..], was, perm', inv')
      invariant forall p, q :: 0 <= p < q <= i && q != j ==> Leq(byIdx, a[p], a[q])
    {
      perm', inv' := Exchange(a[..], was, perm', inv', j);
      ghost var next := a[..][j - 1 := a[j]][j := a[j - 1]];
      a[j - 1], a[j] := a[j], a[j - 1];
      assert a[..] == next;
      j := j - 1;
    }
  }

  /** What is asked of qsort; the order of equal entries is left open. */
  method Sort(a: array<Toff>, byIdx: bool) returns (ghost perm: seq<nat>, ghost inv: seq<nat>)
    modifies a
    ensures Sorted(a[..], byIdx) && Permuted(a[..], old(a[..]), perm, inv)
  {
    perm, inv := seq(a.Length, i => i), seq(a.Length, i => i);
    for i := 0 to a.Length
      invariant Sorted(a[..i], byIdx) && Permuted(a[..], old(a[..]), perm, inv)
    {
      perm, inv := Sink(a, byIdx, i, old(a[..]), perm, inv);
    }
    assert a[..a.Length] == a[..];
  }

  /** How many of the first `n` have the number `tfd`. */
  ghost function CountOf(tfds: seq<int>, tfd: int, n: nat): nat
    requires n <= |tfds|
  {
    if n == 0 then 0 else CountOf(tfds, tfd, n - 1) + if tfds[n - 1] == tfd then 1 else 0
  }

  lemma {:induction false} CountNone(tfds: seq<int>, tfd: int, lo: nat, hi: nat)
    requires lo <= hi <= |tfds| && forall k :: lo <= k < hi ==> tfds[k] != tfd
    ensures CountOf(tfds, tfd, hi) == CountOf(tfds, tfd, lo)
    decreases hi
  {
    if lo < hi {
      CountNone(tfds, tfd, lo, hi - 1);
    }
  }

  /** The entries sorted by number, all of them, with offsets up to `n` filled in. */
  ghost predicate Runs(s: seq<Toff>, tfds: seq<int>, perm: seq<nat>, inv: seq<nat>, n: nat) {
    && |s| == |tfds| && IsPerm(perm, inv, |s|) && Sorted(s, false)
    && (forall p :: 0 <= p < |s| ==> s[p].idx == perm[p] && s[p].tfd == tfds[perm[p]])
    && (forall p :: 0 <= p < |s| ==> s[p].off == if p < n then CountOf(tfds, s[p].tfd, perm[p]) else 0)
  }

  /** An earlier entry with the same number stands before this one, and so in its run. */
  lemma {:induction false} EarlierInRun(s: seq<Toff>, tfds: seq<int>, perm: seq<nat>, inv: seq<nat>, p: nat, k: nat)
    requires Runs(s, tfds, perm, inv, p) && p < |s| && k < perm[p] && tfds[k] == s[p].tfd
    ensures p > 0 && s[p - 1].tfd == s[p].tfd && k <= perm[p - 1]
  {
    var q := inv[k];
    assert forall r :: p < r < |s| ==> Leq(false, s[p], s[r]);
    assert s[q].tfd == s[p].tfd && q < p;
    assert Leq(false, s[p - 1], s[p]);
    assert q == p - 1 || Leq(false, s[q], s[p - 1]);
  }

  /** The rule of the numbering loop is right. */
  lemma {:induction false} RunOffset(s: seq<Toff>, tfds: seq<int>, perm: seq<nat>, inv: seq<nat>, p: nat)
    requires Runs(s, tfds, perm, inv, p) && p < |s|
    ensures CountOf(tfds, s[p].tfd, perm[p])
            == if p > 0 && s[p].tfd == s[p - 1].tfd then s[p - 1].off + 1 else 0
  {
    var x, i := s[p].tfd, perm[p];
    var same := p > 0 && x == s[p - 1].tfd;
    var h := if same then perm[p - 1] + 1 else 0;
    if same {
      assert Leq(false, s[p - 1], s[p]) && inv[perm[p - 1]] != inv[i];
    }
    forall k | h <= k < i
      ensures tfds[k] != x
    {
      if tfds[k] == x {
        EarlierInRun(s, tfds, perm, inv, p, k);
      }
    }
    CountNone(tfds, x, h, i);
  }

  /** Sorted by indices that are a permutation, every entry is at its index. */
  lemma {:induction false} AtItsIndex(s: seq<Toff>, perm: seq<nat>, inv: seq<nat>, p: nat)
    requires Sorted(s, true) && IsPerm(perm, inv, |s|) && p < |s|
    requires forall q :: 0 <= q < |s| ==> s[q].idx == perm[q]
    ensures s[p].idx == p
  {
    AtLeast(s, perm, inv, p);
    AtMost(s, perm, inv, p);
  }

  lemma {:induction false} AtLeast(s: seq<Toff>, perm: seq<nat>, inv: seq<nat>, p: nat)
    requires Sorted(s, true) && IsPerm(perm, inv, |s|) && p < |s|
    requires forall q :: 0 <= q < |s| ==> s[q].idx == perm[q]
    ensures s[p].idx >= p
  {
    if p > 0 {
      AtLeast(s, perm, inv, p - 1);
      assert Leq(true, s[p - 1], s[p]) && inv[perm[p - 1]] != inv[perm[p]];
    }
  }

  lemma {:induction false} AtMost(s: seq<Toff>, perm: seq<nat>, inv: seq<nat>, p: nat)
    requires Sorted(s, true) && IsPerm(perm, inv, |s|) && p < |s|
    requires forall q :: 0 <= q < |s| ==> s[q].idx == perm[q]
    ensures s[p].idx <= p
    decreases |s| - p
  {
    if p + 1 < |s| {
      AtMost(s, perm, inv, p + 1);
      assert Leq(true, s[p], s[p + 1]) && inv[perm[p]] != inv[perm[p + 1]];
    }
  }

  lemma {:induction false} Compose(perm: seq<nat>, inv: seq<nat>, p2: seq<nat>, i2: seq<nat>, n: nat)
    returns (p: seq<nat>, i: seq<nat>)
    requires IsPerm(perm, inv, n) && IsPerm(p2, i2, n)
    ensures IsPerm(p, i, n) && forall k :: 0 <= k < n ==> p[k] == perm[p2[k]]
  {
    p := seq(n, k requires 0 <= k < n => perm[p2[k]]);
    i := seq(n, k requires 0 <= k < n => i2[inv[k]]);
  }

  /**
   * Whatever sort is used: entry `k` is at place `k` again, with the number of
   * earlier entries for the same descriptor as its offset.
   */
  method Offsets(tfds: seq<int>) returns (toff: array<Toff>)
    ensures fresh(toff) && toff.Length == |tfds|
    ensures forall k :: 0 <= k < |tfds| ==> toff[k] == Toff(k, tfds[k], CountOf(tfds, tfds[k], k))
  {
    toff := new Toff[|tfds|](i requires 0 <= i < |tfds| => Toff(i, tfds[i], 0));
    ghost var perm, inv;
    perm, inv := Sort(toff, false);
    Number(toff, tfds, perm, inv);
    ghost var numbered := toff[..];
    ghost var perm2, inv2;
    perm2, inv2 := Sort(toff, true);
    ghost var p, i := Compose(perm, inv, perm2, inv2, |tfds|);
    forall k | 0 <= k < |tfds|
      ensures toff[k] == Toff(k, tfds[k], CountOf(tfds, tfds[k], k))
    {
      AtItsIndex(toff[..], p, i, k);
      assert toff[..][k] == numbered[perm2[k]];
    }
  }

  /** The numbering loop. */
  method Number(toff: array<Toff>, ghost tfds: seq<int>, ghost perm: seq<nat>, ghost inv: seq<nat>)
    requires Runs(toff[..], tfds, perm, inv, 0)
    modifies toff
    ensures Runs(toff[..], tfds, perm, inv, |tfds|)
  {
    if toff.Length > 0 {
      RunOffset(toff[..], tfds, perm, inv, 0);
      assert Runs(toff[..], tfds, perm, inv, 1);
    }
    var i := 1;
    while i < toff.Length
      invariant 1 <= i && Runs(toff[..], tfds, perm, inv, if i <= toff.Length then i else toff.Length)
    {
      RunOffset(toff[..], tfds, perm, inv, i);
      ghost var before := toff[..];
      if toff[i].tfd == toff[i - 1].tfd {
        toff[i] := toff[i].(off := toff[i - 1].off + 1);
      }
      assert forall p :: 0 <= p < toff.Length && p != i ==> toff[..][p] == before[p];
      i := i + 1;
    }
  }
}
