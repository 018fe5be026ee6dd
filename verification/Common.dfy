/** Types and small functions that several models share. */
module Common {

  newtype Byte = x: int | 0 <= x < 256

  datatype Option<T> = None | Some(value: T)

  const INT_MAX: nat := 0x7fff_ffff

  function Min(a: nat, b: nat): nat { if a < b then a else b }

  function Zeros(n: nat): seq<Byte> { seq(n, _ => 0) }

  /** Memory, or a file, with its bytes from `off` on replaced. */
  function Overlay(f: seq<Byte>, off: nat, data: seq<Byte>): (r: seq<Byte>)
    requires off + |data| <= |f|
    ensures |r| == |f|
    ensures forall i :: 0 <= i < |f| ==> r[i] == if off <= i < off + |data| then data[i - off] else f[i]
  {
    f[..off] + data + f[off + |data|..]
  }

  /** The numbers below `n` are `n` many. */
  lemma {:induction false} PrefixSize(n: nat, S: set<nat>)
    requires forall i: nat :: i in S <==> i < n
    ensures |S| == n
  {
    if n > 0 {
      var T := S - {n - 1};
      assert forall i: nat :: i in T <==> i < n - 1;
      PrefixSize(n - 1, T);
    } else {
      assert S == {};
    }
  }

  lemma {:induction false} IndicesSize(n: nat, S: set<nat>)
    requires forall i :: i in S ==> i < n
    ensures |S| <= n
    ensures |S| == n ==> forall i: nat :: i < n ==> i in S
  {
    if n > 0 {
      var U := S - {n - 1};
      IndicesSize(n - 1, U);
      if |S| == n {
        assert n - 1 in S by {
          assert n - 1 !in S ==> U == S;
        }
        forall i: nat | i < n
          ensures i in S
        {
          assert i == n - 1 || i in U;
        }
      }
    } else {
      assert S == {};
    }
  }

  lemma {:induction false} SubsetSize(a: set<nat>, b: set<nat>)
    requires a <= b
    ensures |a| <= |b|
  {
    if x :| x in a {
      SubsetSize(a - {x}, b - {x});
    }
  }

  function Sum(costs: seq<nat>): nat {
    if costs == [] then 0 else Sum(costs[..|costs| - 1]) + costs[|costs| - 1]
  }

  lemma {:induction false} SumUpdate(costs: seq<nat>, i: nat, cost: nat)
    requires i < |costs|
    ensures Sum(costs[i := cost]) == Sum(costs) - costs[i] + cost
  {
    var n := |costs| - 1;
    if i < n {
      SumUpdate(costs[..n], i, cost);
      assert costs[i := cost][..n] == costs[..n][i := cost];
    } else {
      assert costs[i := cost][..n] == costs[..n];
    }
  }

  lemma {:induction false} SumOne(costs: seq<nat>, costs': seq<nat>, i: nat)
    requires i < |costs| == |costs'| && forall j :: 0 <= j < |costs| && j != i ==> costs'[j] == costs[j]
    ensures Sum(costs') == Sum(costs) - costs[i] + costs'[i]
  {
    assert costs' == costs[i := costs'[i]];
    SumUpdate(costs, i, costs'[i]);
  }

  lemma {:induction false} SumTwo(costs: seq<nat>, costs': seq<nat>, i: nat, j: nat)
    requires i < |costs| == |costs'| && j < |costs| && i != j
    requires forall k :: 0 <= k < |costs| && k != i && k != j ==> costs'[k] == costs[k]
    ensures Sum(costs') == Sum(costs) - costs[i] - costs[j] + costs'[i] + costs'[j]
  {
    SumOne(costs, costs[i := costs'[i]], i);
    SumOne(costs[i := costs'[i]], costs', j);
  }

  /** Numbers that each grow by at most so much grow by at most as many times that in sum. */
  lemma {:induction false} SumGrows(costs: seq<nat>, costs': seq<nat>, most: nat)
    requires |costs| == |costs'| && forall i :: 0 <= i < |costs| ==> costs'[i] <= costs[i] + most
    ensures Sum(costs') <= Sum(costs) + |costs| * most
  {
    if costs != [] {
      var n := |costs| - 1;
      assert costs'[n] <= costs[n] + most;
      SumGrows(costs[..n], costs'[..n], most);
      assert |costs| * most == n * most + most;
    }
  }

  lemma {:induction false} SumBelow(costs: seq<nat>, most: nat)
    requires forall i :: 0 <= i < |costs| ==> costs[i] <= most
    ensures Sum(costs) <= |costs| * most
  {
    if costs != [] {
      SumBelow(costs[..|costs| - 1], most);
      assert |costs| * most == (|costs| - 1) * most + most;
    }
  }

  /** Work that every step lessens bounds the number of steps. */
  lemma {:induction false} Descends(work: seq<nat>, k: nat)
    requires k < |work| && forall i :: 0 <= i < |work| - 1 ==> work[i + 1] < work[i]
    ensures work[k] + k <= work[0]
  {
    if k > 0 {
      Descends(work, k - 1);
      assert work[k - 1 + 1] < work[k - 1];
    }
  }

  /** How many of `flags[a..b]` are set. */
  function Flagged(flags: seq<bool>, a: nat, b: nat): nat
    requires a <= b <= |flags|
  {
    if a == b then 0 else Flagged(flags, a, b - 1) + if flags[b - 1] then 1 else 0
  }

  lemma {:induction false} OneMoreTime(a: nat, n: nat)
    ensures a * (n + 1) == a * n + a
  {
  }

  /**
   * If every step takes at least one from the work that is left, but for a flagged step `gain` is added, then
   * there are no more steps than there was work, and `gain` for every flagged step.
   */
  lemma {:induction false} Potential(work: seq<nat>, flags: seq<bool>, gain: nat, a: nat, b: nat)
    requires a <= b <= |flags| && |work| == |flags| + 1
    requires forall k :: a <= k < b ==> work[k + 1] + 1 <= work[k] + if flags[k] then gain else 0
    ensures (b - a) + work[b] <= work[a] + gain * Flagged(flags, a, b)
  {
    if a < b {
      Potential(work, flags, gain, a, b - 1);
      assert work[b - 1 + 1] + 1 <= work[b - 1] + if flags[b - 1] then gain else 0;
      OneMoreTime(gain, Flagged(flags, a, b - 1));
    }
  }
}
