/**
 * The place for the restorer blob (criu/cr-restore.c:2548-2609): the lowest gap that
 * is free both in the restoring process and in the task to be restored, found with
 * one cursor in each of the two lists of mappings.
 */
module VmaHint {
  import opened Common

  datatype Vma = Vma(start: nat, end: nat, guard: bool)

  /** The guard entries, which are synthetic and come last, are not looked at. */
  function Reals(list: seq<Vma>, k: nat): (n: nat)
    requires k <= |list|
    ensures k <= n <= |list| && (n < |list| ==> list[n].guard)
    ensures forall i :: k <= i < n ==> !list[i].guard
    decreases |list| - k
  {
    if k == |list| || list[k].guard then k else Reals(list, k + 1)
  }

  /** The mappings of a non-empty list that count. */
  function Mapped(list: seq<Vma>): (r: seq<Vma>)
    requires list != []
    ensures r != []
  {
    list[..Reals(list, 1)]
  }

  /** When all guards come after a first real entry, those are exactly the real ones. */
  lemma {:induction false} MappedAreTheReal(list: seq<Vma>)
    requires list != [] && !list[0].guard
    requires forall i, j :: 0 <= i < j < |list| && list[i].guard ==> list[j].guard
    ensures forall v :: v in Mapped(list) <==> v in list && !v.guard
  {
    var n := Reals(list, 1);
    assert forall i :: 0 <= i < |list| ==> (list[i].guard <==> i >= n);
  }

  ghost predicate Sorted(s: seq<Vma>) {
    forall i, j :: 0 <= i < j < |s| ==> s[i].start <= s[j].start
  }

  /** Whether `len` bytes at `a` overlap a mapping. */
  predicate Overlaps(a: nat, len: nat, v: Vma) {
    a < v.end && v.start < a + len
  }

  ghost predicate Free(a: nat, len: nat, s: seq<Vma>) {
    forall i :: 0 <= i < |s| ==> !Overlaps(a, len, s[i])
  }

  /** No address from `lo` up to `hi` will do. */
  ghost predicate NoneFrom(lo: nat, hi: nat, len: nat, s: seq<Vma>, t: seq<Vma>) {
    forall a :: lo <= a < hi ==> !(Free(a, len, s) && Free(a, len, t))
  }

  /** The range ends within the address space, or else before some mapping of the list. */
  ghost predicate Bounded(a: nat, len: nat, s: seq<Vma>, size: nat) {
    a + len <= size || exists i :: 0 <= i < |s| && s[i].start >= a + len
  }

  /** What the search is content with. */
  ghost predicate Fits(a: nat, len: nat, s: seq<Vma>, t: seq<Vma>, size: nat) {
    Free(a, len, s) && Free(a, len, t) && Bounded(a, len, s, size) && Bounded(a, len, t, size)
  }

  /** All mappings start within the address space. */
  ghost predicate Within(s: seq<Vma>, size: nat) {
    forall i :: 0 <= i < |s| ==> s[i].start <= size
  }

  /** Where a cursor goes: past the last mapping it stands at the end of the address space. */
  method Step(list: seq<Vma>, i: nat) returns (next: nat)
    requires list != [] && i < |Mapped(list)|
    ensures next == if i + 1 == |Mapped(list)| then |list| else i + 1
  {
    if i + 1 == |list| || list[i + 1].guard {
      return |list|;
    }
    next := i + 1;
  }

  ghost function Passed(list: seq<Vma>, i: nat): (n: nat)
    requires list != [] && (i < |Mapped(list)| || i == |list|)
    ensures n <= |Mapped(list)|
  {
    if i == |list| then |Mapped(list)| else i
  }

  /** Where the mapping under a cursor starts. */
  function StartAt(list: seq<Vma>, i: nat, size: nat): nat {
    if i < |list| then list[i].start else size
  }

  /** One cursor: on a mapping or at the end, with all it has passed below `prev`. */
  ghost predicate Cursor(list: seq<Vma>, i: nat, prev: nat, len: nat) {
    && list != [] && (i < |Mapped(list)| || i == |list|)
    && forall k :: 0 <= k < Passed(list, i) ==> list[k].end <= prev && list[k].start < prev + len
  }

  /** With the cursor's mapping beyond the range, the range is free in the whole list. */
  lemma {:induction false} CursorFree(list: seq<Vma>, i: nat, prev: nat, len: nat, size: nat)
    requires Cursor(list, i, prev, len) && Sorted(Mapped(list)) && prev + len <= StartAt(list, i, size)
    ensures Free(prev, len, Mapped(list)) && Bounded(prev, len, Mapped(list), size)
  {
    var s := Mapped(list);
    forall k | 0 <= k < |s|
      ensures !Overlaps(prev, len, s[k])
    {
      if k >= Passed(list, i) {
        assert s[i].start <= s[k].start;
      }
    }
  }

  /** With the cursor at the end and no room left, nothing higher will do either. */
  lemma {:induction false} CursorEnd(list: seq<Vma>, prev: nat, len: nat, size: nat, a: nat)
    requires Cursor(list, |list|, prev, len) && prev + len > size && a >= prev
    ensures !Bounded(a, len, Mapped(list), size)
  {
  }

  /** Moving past a mapping that is in the way rules out every address up to its end. */
  method Pass(list: seq<Vma>, i: nat, prev: nat, len: nat) returns (i': nat, prev': nat)
    requires Cursor(list, i, prev, len) && i < |list| && prev + len > list[i].start
    ensures Cursor(list, i', prev', len) && i < i' <= |list| && prev <= prev'
    ensures forall a :: prev <= a < prev' ==> !Free(a, len, Mapped(list))
  {
    prev' := if prev < list[i].end then list[i].end else prev;
    i' := Step(list, i);
    forall a | prev <= a < prev'
      ensures !Free(a, len, Mapped(list))
    {
      assert Overlaps(a, len, Mapped(list)[i]);
    }
  }

  /** The lowest address from `min` on that fits, or nothing if none does. */
  ghost predicate IsLowest(r: Option<nat>, s: seq<Vma>, t: seq<Vma>, min: nat, len: nat, size: nat) {
    match r
    case Some(a) => a >= min && Fits(a, len, s, t, size) && NoneFrom(min, a, len, s, t)
    case None => forall a :: a >= min ==> !Fits(a, len, s, t, size)
  }

  /**
   * The search: the lowest address from `min` on that fits, or nothing if none does.
   */
  method Hint(target: seq<Vma>, self: seq<Vma>, min: nat, len: nat, size: nat) returns (r: Option<nat>)
    requires target != [] && self != [] && Sorted(Mapped(target)) && Sorted(Mapped(self))
    ensures IsLowest(r, Mapped(self), Mapped(target), min, len, size)
  {
    ghost var s, t := Mapped(self), Mapped(target);
    var prev: nat, i: nat, j: nat := min, 0, 0;
    while true
      invariant Cursor(self, i, prev, len) && Cursor(target, j, prev, len) && prev >= min
      invariant NoneFrom(min, prev, len, s, t)
      decreases |self| - i + |target| - j
    {
      if prev + len > StartAt(self, i, size) {
        if i == |self| {
          break;
        }
        i, prev := Pass(self, i, prev, len);
      } else if prev + len > StartAt(target, j, size) {
        if j == |target| {
          break;
        }
        j, prev := Pass(target, j, prev, len);
      } else {
        CursorFree(self, i, prev, len, size);
        CursorFree(target, j, prev, len, size);
        return Some(prev);
      }
    }
    forall a | a >= min
      ensures !Fits(a, len, s, t, size)
    {
      if a >= prev && i == |self| && prev + len > size {
        CursorEnd(self, prev, len, size, a);
      } else if a >= prev {
        CursorEnd(target, prev, len, size, a);
      }
    }
    r := None;
  }

  /** There is an unmapped address beyond the address space with mappings above it in both lists. */
  ghost predicate GapBeyond(s: seq<Vma>, t: seq<Vma>, size: nat) {
    exists x: nat :: x >= size && IsGap(x, s) && IsGap(x, t)
  }

  ghost predicate IsGap(x: nat, s: seq<Vma>) {
    Free(x, 1, s) && exists i :: 0 <= i < |s| && s[i].start > x
  }

  /** Every search of the two lists ends within the address space. */
  ghost predicate AlwaysWithin(s: seq<Vma>, t: seq<Vma>, size: nat) {
    forall a: nat, min: nat, len: nat :: len > 0 && IsLowest(Some(a), s, t, min, len, size) ==> a + len <= size
  }

  /** The last byte of a range that ends beyond the address space is such an address. */
  lemma {:induction false} BeyondIsGap(s: seq<Vma>, a: nat, len: nat, size: nat)
    requires len > 0 && a + len > size && Free(a, len, s) && Bounded(a, len, s, size)
    ensures IsGap(a + len - 1, s)
  {
    var x := a + len - 1;
    forall i | 0 <= i < |s|
      ensures !Overlaps(x, 1, s[i])
    {
      assert !Overlaps(a, len, s[i]);
    }
  }

  /**
   * Exactly when the search is bounded by the size of the address space: if and only
   * if no unmapped address beyond it has mappings above it in both lists.
   */
  lemma {:induction false} WithinExactly(s: seq<Vma>, t: seq<Vma>, size: nat)
    ensures AlwaysWithin(s, t, size) <==> !GapBeyond(s, t, size)
  {
    if GapBeyond(s, t, size) {
      var x: nat :| x >= size && IsGap(x, s) && IsGap(x, t);
      assert IsLowest(Some(x), s, t, x, 1, size);
    } else {
      forall a: nat, min: nat, len: nat | len > 0 && IsLowest(Some(a), s, t, min, len, size)
        ensures a + len <= size
      {
        if a + len > size {
          BeyondIsGap(s, a, len, size);
          BeyondIsGap(t, a, len, size);
        }
      }
    }
  }

  /** One list that lies within the address space, as user mappings do, is enough. */
  lemma {:induction false} OneWithin(s: seq<Vma>, t: seq<Vma>, size: nat)
    requires Within(s, size) || Within(t, size)
    ensures !GapBeyond(s, t, size)
  {
  }

  /**
   * Without such a gap the result is the lowest free address whose range ends within
   * the address space, and something is found exactly when there is anything to find.
   */
  method HintWithin(target: seq<Vma>, self: seq<Vma>, min: nat, len: nat, size: nat) returns (r: Option<nat>)
    requires target != [] && self != [] && Sorted(Mapped(target)) && Sorted(Mapped(self))
    requires !GapBeyond(Mapped(self), Mapped(target), size)
    requires len > 0 || Within(Mapped(self), size) || Within(Mapped(target), size)
    ensures r.Some? ==> r.value >= min && r.value + len <= size
    ensures r.Some? ==> Free(r.value, len, Mapped(self)) && Free(r.value, len, Mapped(target))
    ensures r.Some? ==> NoneFrom(min, r.value, len, Mapped(self), Mapped(target))
    ensures r.Some? <==>
            exists a :: a >= min && a + len <= size && Free(a, len, Mapped(self)) && Free(a, len, Mapped(target))
  {
    r := Hint(target, self, min, len, size);
    WithinExactly(Mapped(self), Mapped(target), size);
    if r.None? {
      forall a | a >= min && a + len <= size
        ensures !(Free(a, len, Mapped(self)) && Free(a, len, Mapped(target)))
      {
        assert !Fits(a, len, Mapped(self), Mapped(target), size);
      }
    }
  }

  /** Lists that reach beyond the address space without leaving a gap there. */
  lemma {:induction false} BeyondWithoutGap(size: nat)
    ensures var list := [Vma(0, size + 1, false), Vma(size + 1, size + 2, false)];
            !Within(list, size) && !GapBeyond(list, list, size)
  {
    var list := [Vma(0, size + 1, false), Vma(size + 1, size + 2, false)];
    assert list[1].start > size;
    forall x: nat | x >= size && Free(x, 1, list)
      ensures !IsGap(x, list)
    {
      assert !Overlaps(x, 1, list[0]) && !Overlaps(x, 1, list[1]);
    }
  }

  /** With a mapping beyond the address space in both lists, the range found can be too. */
  method BothBeyond(size: nat) returns (r: Option<nat>)
    ensures r.Some? && r.value + 1 > size
  {
    var list := [Vma(size + 1, size + 2, false)];
    assert Mapped(list) == list;
    r := Hint(list, list, size, 1, size);
    assert list[0].start >= size + 1;
    assert Fits(size, 1, list, list, size);
  }
}
