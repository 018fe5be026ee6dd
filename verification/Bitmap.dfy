/**
 * Setting and clearing a range of bits word by word (criu/bitmap.c:5-49): a partial
 * first word, full words and a partial last one, or a single word that is both.
 */
module Bitmap {
  const BITS_PER_LONG := 64

  /** An unsigned long by its bits, the lowest first. */
  type Word = w: seq<bool> | |w| == BITS_PER_LONG witness seq(BITS_PER_LONG, _ => false)

  function Ones(): (r: Word)
    ensures forall i :: 0 <= i < BITS_PER_LONG ==> r[i]
  {
    seq(BITS_PER_LONG, _ => true)
  }

  function One(): (r: Word)
    ensures forall i :: 0 <= i < BITS_PER_LONG ==> (r[i] <==> i == 0)
  {
    seq(BITS_PER_LONG, i => i == 0)
  }

  function Or(a: Word, b: Word): Word {
    seq(BITS_PER_LONG, i requires 0 <= i < BITS_PER_LONG => a[i] || b[i])
  }

  function And(a: Word, b: Word): Word {
    seq(BITS_PER_LONG, i requires 0 <= i < BITS_PER_LONG => a[i] && b[i])
  }

  function Not(a: Word): Word {
    seq(BITS_PER_LONG, i requires 0 <= i < BITS_PER_LONG => !a[i])
  }

  function Shl(a: Word, k: nat): Word
    requires k < BITS_PER_LONG
  {
    seq(k, _ => false) + a[..BITS_PER_LONG - k]
  }

  /** One less, borrowing from the lowest bit that is set. */
  function Minus1(a: seq<bool>): (r: seq<bool>)
    ensures |r| == |a|
  {
    if a == [] then [] else if a[0] then [false] + a[1..] else [true] + Minus1(a[1..])
  }

  function FirstWordMask(start: nat): Word {
    Shl(Ones(), start % BITS_PER_LONG)
  }

  function LastWordMask(nbits: nat): Word {
    if nbits % BITS_PER_LONG != 0 then Minus1(Shl(One(), nbits % BITS_PER_LONG)) else Ones()
  }

  /** Below a lone bit, one less sets every bit. */
  lemma {:induction false} Minus1Low(a: seq<bool>, k: nat, i: nat)
    requires k < |a| && i < |a| && forall j :: 0 <= j < |a| ==> (a[j] <==> j == k)
    ensures Minus1(a)[i] <==> i < k
  {
    if k > 0 && i > 0 {
      Minus1Low(a[1..], k - 1, i - 1);
    }
  }

  lemma {:induction false} LastWordBits(nbits: nat, i: nat)
    requires i < BITS_PER_LONG
    ensures LastWordMask(nbits)[i] <==> nbits % BITS_PER_LONG == 0 || i < nbits % BITS_PER_LONG
  {
    var k := nbits % BITS_PER_LONG;
    if k != 0 {
      Minus1Low(Shl(One(), k), k, i);
    }
  }

  /** The bits of a mask set or cleared in one word. */
  function Apply(w: Word, mask: Word, value: bool): (r: Word)
    ensures forall j :: 0 <= j < BITS_PER_LONG ==> r[j] == if mask[j] then value else w[j]
  {
    if value then Or(w, mask) else And(w, Not(mask))
  }

  /** The bits from `lo` up to `hi` have the value, all others are those of `was`. */
  ghost predicate Updated(was: seq<Word>, now: seq<Word>, lo: nat, hi: nat, value: bool) {
    && |now| == |was|
    && forall i, j :: 0 <= i < |was| && 0 <= j < BITS_PER_LONG ==>
         now[i][j] == if lo <= BITS_PER_LONG * i + j < hi then value else was[i][j]
  }

  /** One more word, whose bits from `mid` up to `hi` are written. */
  lemma {:induction false} NextWord(was: seq<Word>, now: seq<Word>, p: nat, mask: Word, lo: nat, mid: nat, hi: nat,
          value: bool)
    requires Updated(was, now, lo, mid, value) && lo <= mid <= hi && p < |was|
    requires BITS_PER_LONG * p <= mid && hi <= BITS_PER_LONG * (p + 1)
    requires forall j :: 0 <= j < BITS_PER_LONG ==> (mask[j] <==> mid <= BITS_PER_LONG * p + j < hi)
    ensures Updated(was, now[p := Apply(now[p], mask, value)], lo, hi, value)
  {
  }

  /**
   * `bitmap_set` and `bitmap_clear`, which differ in the value only: exactly the bits
   * from `start` up to `start + nr` get it, and all others are as before.
   */
  method Update(words: array<Word>, start: nat, nr: nat, value: bool)
    requires start + nr <= BITS_PER_LONG * words.Length
    modifies words
    ensures Updated(old(words[..]), words[..], start, start + nr, value)
  {
    ghost var was := words[..];
    var p, left := start / BITS_PER_LONG, nr;
    var size := start + nr;
    var bits := BITS_PER_LONG - start % BITS_PER_LONG;
    var mask := FirstWordMask(start);
    while left - bits >= 0
      invariant 0 <= left <= nr && bits == BITS_PER_LONG * (p + 1) - (size - left) && 0 < bits <= BITS_PER_LONG
      invariant 0 <= p && forall j :: 0 <= j < BITS_PER_LONG ==> (mask[j] <==> BITS_PER_LONG - bits <= j)
      invariant Updated(was, words[..], start, size - left, value)
      decreases left
    {
      NextWord(was, words[..], p, mask, start, size - left, size - left + bits, value);
      words[p] := Apply(words[p], mask, value);
      left := left - bits;
      bits, mask, p := BITS_PER_LONG, Ones(), p + 1;
    }
    if left != 0 {
      forall j | 0 <= j < BITS_PER_LONG
        ensures LastWordMask(size)[j] <==> j < size - BITS_PER_LONG * p
      {
        LastWordBits(size, j);
      }
      mask := And(mask, LastWordMask(size));
      NextWord(was, words[..], p, mask, start, size - left, size, value);
      words[p] := Apply(words[p], mask, value);
    }
  }

  /** Bits set and cleared again are clear, and the rest of the map has not changed. */
  method SetThenClear(words: array<Word>, start: nat, nr: nat)
    requires start + nr <= BITS_PER_LONG * words.Length
    modifies words
    ensures forall i, j :: 0 <= i < words.Length && 0 <= j < BITS_PER_LONG ==>
              words[i][j] == (old(words[i])[j] && !(start <= BITS_PER_LONG * i + j < start + nr))
  {
    Update(words, start, nr, true);
    Update(words, start, nr, false);
  }
}
