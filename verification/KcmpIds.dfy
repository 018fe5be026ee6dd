/**
 * One ID per kernel object (criu/kcmp-ids.c:54-197). Objects are kept in a tree ordered
 * by a hash of what fstat says (the genid); every node of it carries a second tree of
 * the objects with that genid, ordered by the answers of sys_kcmp.
 */
module KcmpIds {
  import opened Common

  // ---- Search trees ----

  datatype Tree<T> = Leaf | Node(left: Tree<T>, entry: T, right: Tree<T>)

  /** The turns from the root to a link; true is left. */
  type Way = seq<bool>

  ghost function InOrder<T>(t: Tree<T>): seq<T> {
    match t
    case Leaf => []
    case Node(l, e, r) => InOrder(l) + [e] + InOrder(r)
  }

  function Child<T>(t: Tree<T>, left: bool): Tree<T>
    requires t.Node?
  {
    if left then t.left else t.right
  }

  ghost predicate IsWay<T>(t: Tree<T>, way: Way) {
    way == [] || (t.Node? && IsWay(Child(t, way[0]), way[1..]))
  }

  function Under<T>(t: Tree<T>, way: Way): Tree<T>
    requires IsWay(t, way)
  {
    if way == [] then t else Under(Child(t, way[0]), way[1..])
  }

  /** Put `s` at the link that `way` leads to. */
  function Graft<T>(t: Tree<T>, way: Way, s: Tree<T>): Tree<T>
    requires IsWay(t, way)
  {
    if way == [] then s
    else if way[0] then t.(left := Graft(t.left, way[1..], s))
    else t.(right := Graft(t.right, way[1..], s))
  }

  /** The entries in order before, and after, the link. */
  ghost function Before<T>(t: Tree<T>, way: Way): seq<T>
    requires IsWay(t, way)
  {
    if way == [] then []
    else if way[0] then Before(t.left, way[1..])
    else InOrder(t.left) + [t.entry] + Before(t.right, way[1..])
  }

  ghost function After<T>(t: Tree<T>, way: Way): seq<T>
    requires IsWay(t, way)
  {
    if way == [] then []
    else if way[0] then After(t.left, way[1..]) + [t.entry] + InOrder(t.right)
    else After(t.right, way[1..])
  }

  lemma {:induction false} Regroup<T>(a: seq<T>, b: seq<T>, c: seq<T>, x: T, d: seq<T>)
    ensures a + b + (c + [x] + d) == (a + b + c) + [x] + d
    ensures (d + [x] + a) + b + c == d + [x] + (a + b + c)
  {
  }

  /** Linking at a way replaces exactly what was there in the order of the entries. */
  lemma {:induction false} GraftInOrder<T>(t: Tree<T>, way: Way, s: Tree<T>)
    requires IsWay(t, way)
    ensures InOrder(Graft(t, way, s)) == Before(t, way) + InOrder(s) + After(t, way)
  {
    if way != [] {
      var c := Child(t, way[0]);
      GraftInOrder(c, way[1..], s);
      Regroup(Before(c, way[1..]), InOrder(s), After(c, way[1..]), t.entry, InOrder(Child(t, !way[0])));
    }
  }

  lemma {:induction false} GraftBack<T>(t: Tree<T>, way: Way)
    requires IsWay(t, way)
    ensures Graft(t, way, Under(t, way)) == t
  {
    if way != [] {
      GraftBack(Child(t, way[0]), way[1..]);
    }
  }

  lemma {:induction false} Cut<T>(t: Tree<T>, way: Way)
    requires IsWay(t, way)
    ensures InOrder(t) == Before(t, way) + InOrder(Under(t, way)) + After(t, way)
  {
    GraftBack(t, way);
    GraftInOrder(t, way, Under(t, way));
  }

  lemma {:induction false} Turn<T>(t: Tree<T>, way: Way, left: bool)
    requires IsWay(t, way) && Under(t, way).Node?
    ensures IsWay(t, way + [left]) && Under(t, way + [left]) == Child(Under(t, way), left)
  {
    if way == [] {
      assert (way + [left])[1..] == [];
    } else {
      Turn(Child(t, way[0]), way[1..], left);
      assert (way + [left])[1..] == way[1..] + [left];
    }
  }

  lemma {:induction false} TurnLeft<T>(t: Tree<T>, way: Way)
    requires IsWay(t, way) && IsWay(t, way + [true]) && Under(t, way).Node?
    ensures Before(t, way + [true]) == Before(t, way)
    ensures After(t, way + [true]) == [Under(t, way).entry] + InOrder(Under(t, way).right) + After(t, way)
  {
    if way == [] {
      assert (way + [true])[1..] == [];
    } else {
      assert (way + [true])[1..] == way[1..] + [true];
      TurnLeft(Child(t, way[0]), way[1..]);
    }
  }

  lemma {:induction false} TurnRight<T>(t: Tree<T>, way: Way)
    requires IsWay(t, way) && IsWay(t, way + [false]) && Under(t, way).Node?
    ensures Before(t, way + [false]) == Before(t, way) + InOrder(Under(t, way).left) + [Under(t, way).entry]
    ensures After(t, way + [false]) == After(t, way)
  {
    if way == [] {
      assert (way + [false])[1..] == [];
    } else {
      assert (way + [false])[1..] == way[1..] + [false];
      TurnRight(Child(t, way[0]), way[1..]);
    }
  }

  /** The entries before, and after, the entry at a way. */
  ghost function Lesser<T>(t: Tree<T>, way: Way): seq<T>
    requires IsWay(t, way) && Under(t, way).Node?
  {
    Before(t, way) + InOrder(Under(t, way).left)
  }

  ghost function Greater<T>(t: Tree<T>, way: Way): seq<T>
    requires IsWay(t, way) && Under(t, way).Node?
  {
    InOrder(Under(t, way).right) + After(t, way)
  }

  lemma {:induction false} Reassociate<T>(a: seq<T>, l: seq<T>, x: T, r: seq<T>, b: seq<T>)
    ensures a + (l + [x] + r) + b == (a + l) + [x] + (r + b)
  {
  }

  /** Changing the entry at a way changes nothing else in the order. */
  lemma {:induction false} SwapInOrder<T>(t: Tree<T>, way: Way, x: T)
    requires IsWay(t, way) && Under(t, way).Node?
    ensures InOrder(t) == Lesser(t, way) + [Under(t, way).entry] + Greater(t, way)
    ensures InOrder(Graft(t, way, Under(t, way).(entry := x))) == Lesser(t, way) + [x] + Greater(t, way)
  {
    var n := Under(t, way);
    Cut(t, way);
    GraftInOrder(t, way, n.(entry := x));
    Reassociate(Before(t, way), InOrder(n.left), n.entry, InOrder(n.right), After(t, way));
    Reassociate(Before(t, way), InOrder(n.left), x, InOrder(n.right), After(t, way));
  }

  // ---- Order ----

  ghost predicate Sorted<T>(s: seq<T>, rank: T -> int) {
    forall i, j :: 0 <= i < j < |s| ==> rank(s[i]) < rank(s[j])
  }

  ghost predicate Below<T>(s: seq<T>, rank: T -> int, key: int) {
    forall i :: 0 <= i < |s| ==> rank(s[i]) < key
  }

  ghost predicate Above<T>(s: seq<T>, rank: T -> int, key: int) {
    forall i :: 0 <= i < |s| ==> key < rank(s[i])
  }

  /** The invariant of a descent: the key belongs below this link or nowhere. */
  ghost predicate Between<T>(t: Tree<T>, way: Way, rank: T -> int, key: int) {
    IsWay(t, way) && Below(Before(t, way), rank, key) && Above(After(t, way), rank, key)
  }

  lemma {:induction false} SortedParts<T>(a: seq<T>, x: T, b: seq<T>, rank: T -> int)
    requires Sorted(a + [x] + b, rank)
    ensures Below(a, rank, rank(x)) && Above(b, rank, rank(x)) && Sorted(a, rank) && Sorted(b, rank)
  {
    var s := a + [x] + b;
    assert s[|a|] == x;
    forall i | 0 <= i < |b|
      ensures b[i] == s[|a| + 1 + i]
    {
    }
    forall i | 0 <= i < |a|
      ensures a[i] == s[i]
    {
    }
  }

  /** Going to the side where the key is smaller, or larger, than the entry seen. */
  lemma {:induction false} Descend<T>(t: Tree<T>, way: Way, rank: T -> int, key: int, left: bool)
    requires Sorted(InOrder(t), rank) && Between(t, way, rank, key) && Under(t, way).Node?
    requires if left then key < rank(Under(t, way).entry) else rank(Under(t, way).entry) < key
    ensures Between(t, way + [left], rank, key)
    ensures Under(t, way + [left]) == Child(Under(t, way), left)
  {
    var n := Under(t, way);
    SwapInOrder(t, way, n.entry);
    SortedParts(Lesser(t, way), n.entry, Greater(t, way), rank);
    Turn(t, way, left);
    if left {
      TurnLeft(t, way);
      assert After(t, way + [left]) == [n.entry] + Greater(t, way);
    } else {
      TurnRight(t, way);
      assert Before(t, way + [left]) == Lesser(t, way) + [n.entry];
    }
  }

  lemma {:induction false} SortedInsert<T>(a: seq<T>, x: T, b: seq<T>, rank: T -> int)
    requires Sorted(a + b, rank) && Below(a, rank, rank(x)) && Above(b, rank, rank(x))
    ensures Sorted(a + [x] + b, rank)
  {
    var s, w := a + [x] + b, a + b;
    forall i, j | 0 <= i < j < |s|
      ensures rank(s[i]) < rank(s[j])
    {
      assert i < |a| ==> s[i] == a[i] == w[i];
      assert i > |a| ==> s[i] == w[i - 1];
      assert j < |a| ==> s[j] == w[j];
      assert j > |a| ==> s[j] == b[j - |a| - 1] == w[j - 1];
    }
  }

  /** At an empty link the key is nowhere. */
  lemma {:induction false} Vacant<T>(t: Tree<T>, way: Way, rank: T -> int, key: int)
    requires Between(t, way, rank, key) && Under(t, way) == Leaf
    ensures InOrder(t) == Before(t, way) + After(t, way)
    ensures forall y :: y in InOrder(t) ==> rank(y) != key
  {
    Cut(t, way);
    forall y | y in InOrder(t)
      ensures rank(y) != key
    {
      assert y in Before(t, way) || y in After(t, way);
    }
  }

  /** And a new entry with the key fits there. */
  lemma {:induction false} Fits<T>(t: Tree<T>, way: Way, rank: T -> int, x: T)
    requires Sorted(InOrder(t), rank) && Between(t, way, rank, rank(x)) && Under(t, way) == Leaf
    ensures Sorted(InOrder(Graft(t, way, Node(Leaf, x, Leaf))), rank)
    ensures InOrder(Graft(t, way, Node(Leaf, x, Leaf))) == Before(t, way) + [x] + After(t, way)
  {
    Vacant(t, way, rank, rank(x));
    assert InOrder(Node(Leaf, x, Leaf)) == [x];
    GraftInOrder(t, way, Node(Leaf, x, Leaf));
    SortedInsert(Before(t, way), x, After(t, way), rank);
  }

  // ---- Kernel objects ----

  datatype Elem = Elem(pid: nat, genid: nat, idx: nat)

  datatype Entry = Entry(subid: nat, elem: Elem)

  datatype Head = Head(genid: nat, subs: Tree<Entry>)

  /**
   * What a pid and an index refer to, and the genid of an object. Objects stand for
   * their place in the total order that sys_kcmp reports.
   */
  datatype Kernel = Kernel(refers: (nat, nat) -> int, gen: int -> nat) {
    function Obj(e: Elem): int {
      refers(e.pid, e.idx)
    }

    /** The genid of an element is that of its object. */
    predicate Genuine(e: Elem) {
      e.genid == gen(Obj(e))
    }
  }

  function GenRank(): Head -> int {
    (h: Head) => h.genid
  }

  /** An answer of 1 (first smaller) leads to the left, so larger objects come first. */
  function KcmpRank(k: Kernel): Entry -> int {
    (e: Entry) => -k.Obj(e.elem)
  }

  const ID_LIMIT: nat := 0x1_0000_0000

  /** The 32-bit ID made of the counter. */
  function Trunc(serial: nat): (id: nat)
    ensures id < ID_LIMIT
  {
    serial % ID_LIMIT
  }

  /** The counter value each object got its ID from. */
  type Serials = map<int, nat>

  ghost predicate GoodEntry(k: Kernel, serials: Serials, genid: nat, e: Entry) {
    var o := k.Obj(e.elem);
    k.gen(o) == genid && o in serials && e.subid == Trunc(serials[o])
  }

  ghost predicate GoodHead(k: Kernel, serials: Serials, h: Head) {
    && h.subs.Node? && Sorted(InOrder(h.subs), KcmpRank(k))
    && (forall e :: e in InOrder(h.subs) ==> GoodEntry(k, serials, h.genid, e))
  }

  ghost predicate Holds(k: Kernel, h: Head, o: int) {
    exists e :: e in InOrder(h.subs) && k.Obj(e.elem) == o
  }

  ghost predicate InHeads(k: Kernel, heads: seq<Head>, o: int) {
    exists h :: h in heads && h.genid == k.gen(o) && Holds(k, h, o)
  }

  ghost predicate GoodHeads(k: Kernel, serials: Serials, heads: seq<Head>) {
    && Sorted(heads, GenRank())
    && (forall h :: h in heads ==> GoodHead(k, serials, h))
    && (forall o :: o in serials ==> InHeads(k, heads, o))
  }

  ghost predicate GoodSerials(serials: Serials, next: nat) {
    && (forall o :: o in serials ==> 1 <= serials[o] < next)
    && (forall o, p :: o in serials && p in serials && serials[o] == serials[p] ==> o == p)
  }

  /** A head of a new genid in its place. */
  lemma {:induction false} AddHead(k: Kernel, serials: Serials, a: seq<Head>, h: Head, b: seq<Head>, o: int,
          serial: nat)
    requires GoodHeads(k, serials, a + b) && Sorted(a + [h] + b, GenRank()) && o !in serials
    requires GoodHead(k, serials[o := serial], h) && Holds(k, h, o) && h.genid == k.gen(o)
    ensures GoodHeads(k, serials[o := serial], a + [h] + b)
  {
    forall g | g in a + [h] + b
      ensures GoodHead(k, serials[o := serial], g)
    {
      if g != h {
        assert g in a + b;
        KeepHead(k, serials, g, o, serial);
      }
    }
    forall p | p in serials[o := serial]
      ensures InHeads(k, a + [h] + b, p)
    {
      if p != o {
        var g :| g in a + b && g.genid == k.gen(p) && Holds(k, g, p);
        assert g in a + [h] + b;
      } else {
        assert h in a + [h] + b;
      }
    }
  }

  lemma {:induction false} KeepHead(k: Kernel, serials: Serials, h: Head, o: int, serial: nat)
    requires GoodHead(k, serials, h) && o !in serials
    ensures GoodHead(k, serials[o := serial], h)
  {
  }

  /** A head replaced by one that holds all it held, and possibly a new object. */
  lemma {:induction false} SwapHead(k: Kernel, serials: Serials, a: seq<Head>, h: Head, h': Head, b: seq<Head>, o: int,
          serial: nat)
    requires GoodHeads(k, serials, a + [h] + b) && o !in serials
    requires h'.genid == h.genid == k.gen(o) && GoodHead(k, serials[o := serial], h') && Holds(k, h', o)
    requires forall p :: Holds(k, h, p) ==> Holds(k, h', p)
    ensures GoodHeads(k, serials[o := serial], a + [h'] + b)
  {
    var was, now := a + [h] + b, a + [h'] + b;
    assert forall i :: 0 <= i < |was| ==> GenRank()(was[i]) == GenRank()(now[i]);
    forall g | g in now
      ensures GoodHead(k, serials[o := serial], g)
    {
      if g != h' {
        assert g in was;
        KeepHead(k, serials, g, o, serial);
      }
    }
    assert now[|a|] == h';
    forall p | p in serials[o := serial]
      ensures InHeads(k, now, p)
    {
      if p != o {
        var g :| g in was && g.genid == k.gen(p) && Holds(k, g, p);
        assert g != h ==> g in now;
      }
    }
  }

  /** An object that no entry of its genid's head is, is in no head. */
  lemma {:induction false} NotThere(k: Kernel, serials: Serials, heads: seq<Head>, h: Head, o: int)
    requires GoodHeads(k, serials, heads) && h in heads && h.genid == k.gen(o) && !Holds(k, h, o)
    ensures o !in serials
  {
    forall g | g in heads && g.genid == k.gen(o)
      ensures g == h
    {
      var i :| 0 <= i < |heads| && heads[i] == g;
      var j :| 0 <= j < |heads| && heads[j] == h;
      assert GenRank()(heads[i]) == GenRank()(heads[j]);
    }
  }

  lemma {:induction false} HeadFits(k: Kernel, serials: Serials, serial: nat, root: Tree<Head>, way: Way, e: Entry)
    requires GoodHeads(k, serials, InOrder(root)) && k.Genuine(e.elem) && k.Obj(e.elem) !in serials
    requires Between(root, way, GenRank(), e.elem.genid) && Under(root, way) == Leaf && e.subid == Trunc(serial)
    ensures var h := Head(e.elem.genid, Node(Leaf, e, Leaf));
            GoodHeads(k, serials[k.Obj(e.elem) := serial], InOrder(Graft(root, way, Node(Leaf, h, Leaf))))
  {
    var h := Head(e.elem.genid, Node(Leaf, e, Leaf));
    assert InOrder(h.subs) == [e];
    assert e in InOrder(h.subs);
    Vacant(root, way, GenRank(), e.elem.genid);
    Fits(root, way, GenRank(), h);
    AddHead(k, serials, Before(root, way), h, After(root, way), k.Obj(e.elem), serial);
  }

  /** The tree of one genid with a new entry in its place. */
  lemma {:induction false} GrownHead(k: Kernel, serials: Serials, h: Head, sub: Way, e: Entry, serial: nat, h': Head)
    requires GoodHead(k, serials, h) && k.Obj(e.elem) !in serials
    requires h.genid == k.gen(k.Obj(e.elem)) && e.subid == Trunc(serial)
    requires Between(h.subs, sub, KcmpRank(k), -k.Obj(e.elem)) && Under(h.subs, sub) == Leaf
    requires h'.genid == h.genid && InOrder(h'.subs) == InOrder(Graft(h.subs, sub, Node(Leaf, e, Leaf)))
    ensures GoodHead(k, serials[k.Obj(e.elem) := serial], h')
    ensures Holds(k, h', k.Obj(e.elem))
    ensures forall p :: Holds(k, h, p) ==> Holds(k, h', p)
  {
    Vacant(h.subs, sub, KcmpRank(k), KcmpRank(k)(e));
    Fits(h.subs, sub, KcmpRank(k), e);
    var a, b := Before(h.subs, sub), After(h.subs, sub);
    assert InOrder(h'.subs) == a + [e] + b && InOrder(h.subs) == a + b;
    assert e in InOrder(h'.subs) && h'.subs.Node?;
    assert forall x :: x in InOrder(h'.subs) ==> x == e || x in InOrder(h.subs);
    assert forall x :: x in InOrder(h.subs) ==> x in InOrder(h'.subs);
  }

  lemma {:induction false} EntryFits(k: Kernel, serials: Serials, serial: nat, root: Tree<Head>, way: Way, sub: Way,
          e: Entry, h': Head)
    requires GoodHeads(k, serials, InOrder(root)) && k.Genuine(e.elem) && k.Obj(e.elem) !in serials
    requires IsWay(root, way) && Under(root, way).Node? && e.subid == Trunc(serial)
    requires Under(root, way).entry.genid == h'.genid == e.elem.genid
    requires Between(Under(root, way).entry.subs, sub, KcmpRank(k), -k.Obj(e.elem))
    requires Under(Under(root, way).entry.subs, sub) == Leaf
    requires InOrder(h'.subs) == InOrder(Graft(Under(root, way).entry.subs, sub, Node(Leaf, e, Leaf)))
    ensures GoodHeads(k, serials[k.Obj(e.elem) := serial],
                      InOrder(Graft(root, way, Under(root, way).(entry := h'))))
  {
    var h := Under(root, way).entry;
    SwapInOrder(root, way, h');
    assert h in InOrder(root);
    GrownHead(k, serials, h, sub, e, serial, h');
    SwapHead(k, serials, Lesser(root, way), h, h', Greater(root, way), k.Obj(e.elem), serial);
  }

  lemma {:induction false} SerialsGrow(serials: Serials, next: nat, o: int)
    requires GoodSerials(serials, next) && o !in serials && next >= 1
    ensures GoodSerials(serials[o := next], next + 1)
  {
  }

  /** Any change of shape that keeps the order of the entries, as rebalancing does. */
  ghost predicate KeepsOrder<T(!new)>(balance: Tree<T> -> Tree<T>) {
    forall t :: InOrder(balance(t)) == InOrder(t)
  }

  /** Where a descent ended: at an equal entry, at an empty link, or on a failed kcmp. */
  datatype Search = Found(way: Way) | Missing(way: Way) | Broken

  /** What a request returns: an ID and whether it is new, an error, or a failed check. */
  datatype Reply = Id(id: nat, isNew: bool) | Error | Bug

  class KidTree {
    const kernel: Kernel
    const faults: nat -> bool
    const balanceHeads: Tree<Head> -> Tree<Head>
    const balanceSubs: Tree<Entry> -> Tree<Entry>
    var root: Tree<Head>
    var subid: nat
    var ncalls: nat
    ghost var serials: Serials

    ghost predicate Valid()
      reads this
    {
      && subid >= 1 && KeepsOrder(balanceHeads) && KeepsOrder(balanceSubs)
      && GoodHeads(kernel, serials, InOrder(root)) && GoodSerials(serials, subid)
    }

    constructor (kernel: Kernel, faults: nat -> bool, balanceHeads: Tree<Head> -> Tree<Head>,
            balanceSubs: Tree<Entry> -> Tree<Entry>)
      requires KeepsOrder(balanceHeads) && KeepsOrder(balanceSubs)
      ensures Valid() && serials == map[] && subid == 1
      ensures this.kernel == kernel && this.faults == faults
    {
      this.kernel, this.faults := kernel, faults;
      this.balanceHeads, this.balanceSubs := balanceHeads, balanceSubs;
      root, subid, ncalls, serials := Leaf, 1, 0, map[];
    }

    /** The bare `subid++` that special files take their IDs with: nothing checks it. */
    method TakeId() returns (id: nat)
      requires Valid()
      modifies this`subid
      ensures Valid() && subid == old(subid) + 1 && id == Trunc(old(subid))
    {
      id := Trunc(subid);
      subid := subid + 1;
    }

    /** The descent by genid, which both the request and the epoll lookup begin with. */
    method FindHead(genid: nat) returns (s: Search)
      requires Valid()
      ensures !s.Broken? && Between(root, s.way, GenRank(), genid)
      ensures s.Found? ==> Under(root, s.way).Node? && Under(root, s.way).entry.genid == genid
      ensures s.Missing? ==> Under(root, s.way) == Leaf
    {
      var node, way := root, [];
      while node.Node?
        invariant Between(root, way, GenRank(), genid) && node == Under(root, way)
        decreases node
      {
        if genid == node.entry.genid {
          return Found(way);
        }
        var left := genid < node.entry.genid;
        Descend(root, way, GenRank(), genid, left);
        node, way := Child(node, left), way + [left];
      }
      s := Missing(way);
    }

    /** The descent by sys_kcmp against `target` in the tree of one genid, which is checked not to be empty. */
    method FindEntry(subs: Tree<Entry>, target: int) returns (s: Search)
      requires subs.Node? && Sorted(InOrder(subs), KcmpRank(kernel))
      modifies this`ncalls
      ensures !s.Broken? ==> Between(subs, s.way, KcmpRank(kernel), -target)
      ensures s.Found? ==> Under(subs, s.way).Node? && kernel.Obj(Under(subs, s.way).entry.elem) == target
      ensures s.Missing? ==> Under(subs, s.way) == Leaf
      ensures s.Broken? ==> exists n :: faults(n)
    {
      var node, way := subs, [];
      while node.Node?
        invariant Between(subs, way, KcmpRank(kernel), -target) && node == Under(subs, way)
        decreases node
      {
        ncalls := ncalls + 1;
        if faults(ncalls) {
          return Broken;
        }
        var other := kernel.Obj(node.entry.elem);
        if other == target {
          return Found(way);
        }
        Descend(subs, way, KcmpRank(kernel), -target, other < target);
        node, way := Child(node, other < target), way + [other < target];
      }
      s := Missing(way);
    }

    /** Every object that an entry at a way stands for has a serial. */
    lemma {:induction false} FoundEntry(way: Way, sub: Way)
      requires Valid() && IsWay(root, way) && Under(root, way).Node?
      requires IsWay(Under(root, way).entry.subs, sub) && Under(Under(root, way).entry.subs, sub).Node?
      ensures var e := Under(Under(root, way).entry.subs, sub).entry;
              GoodEntry(kernel, serials, Under(root, way).entry.genid, e)
    {
      var h := Under(root, way).entry;
      Cut(root, way);
      assert h in InOrder(root);
      Cut(h.subs, sub);
      assert Under(h.subs, sub).entry in InOrder(h.subs);
    }

    /** No head with the genid, or no such entry in the head: the object is unknown. */
    lemma {:induction false} Unknown(way: Way, sub: Search, o: int)
      requires Valid() && Between(root, way, GenRank(), kernel.gen(o))
      requires Under(root, way) == Leaf || Under(root, way).entry.genid == kernel.gen(o)
      requires Under(root, way).Node? ==>
                 && sub.Missing? && Between(Under(root, way).entry.subs, sub.way, KcmpRank(kernel), -o)
                 && Under(Under(root, way).entry.subs, sub.way) == Leaf
      ensures o !in serials
    {
      Cut(root, way);
      if Under(root, way) == Leaf {
        Vacant(root, way, GenRank(), kernel.gen(o));
        assert forall g :: g in InOrder(root) ==> GenRank()(g) != kernel.gen(o);
      } else {
        var h := Under(root, way).entry;
        assert h in InOrder(root);
        NotInSubs(h, sub.way, o);
        NotThere(kernel, serials, InOrder(root), h, o);
      }
    }

    lemma {:induction false} NotInSubs(h: Head, sub: Way, o: int)
      requires Sorted(InOrder(h.subs), KcmpRank(kernel))
      requires Between(h.subs, sub, KcmpRank(kernel), -o) && Under(h.subs, sub) == Leaf
      ensures !Holds(kernel, h, o)
    {
      Vacant(h.subs, sub, KcmpRank(kernel), -o);
      assert forall e :: e in InOrder(h.subs) ==> KcmpRank(kernel)(e) != -o;
    }

    /** `kid_generate_gen`: the case of a genid seen for the first time. */
    method NewHead(elem: Elem, way: Way) returns (r: Reply)
      requires Valid() && kernel.Genuine(elem) && kernel.Obj(elem) !in serials
      requires Between(root, way, GenRank(), elem.genid) && Under(root, way) == Leaf
      modifies this`root, this`subid, this`serials
      ensures Added(elem, old(serials), old(subid), r)
    {
      var e := Entry(Trunc(subid), elem);
      var h := Head(elem.genid, Node(Leaf, e, Leaf));
      HeadFits(kernel, serials, subid, root, way, e);
      SerialsGrow(serials, subid, kernel.Obj(elem));
      r := Link(e, balanceHeads(Graft(root, way, Node(Leaf, h, Leaf))), serials[kernel.Obj(elem) := subid]);
    }

    /** The end of an allocation: the counter moves on and the tree with the new entry is in place. */
    method Link(e: Entry, newRoot: Tree<Head>, ghost grown: Serials) returns (r: Reply)
      requires Valid() && e.subid == Trunc(subid) && grown == serials[kernel.Obj(e.elem) := subid]
      requires GoodHeads(kernel, grown, InOrder(newRoot)) && GoodSerials(grown, subid + 1)
      modifies this`root, this`subid, this`serials
      ensures Added(e.elem, old(serials), old(subid), r)
    {
      subid := subid + 1;
      if e.subid == 0 {
        return Bug;
      }
      root, serials := newRoot, grown;
      r := Id(e.subid, true);
    }

    /** What an allocation leaves behind, whether or not it stops at the overflow check. */
    ghost predicate Added(elem: Elem, was: Serials, serial: nat, r: Reply)
      reads this
    {
      && subid == serial + 1
      && (r == Bug <==> Trunc(serial) == 0) && (r != Bug ==> r == Id(Trunc(serial), true))
      && (r != Bug ==> Valid() && serials == was[kernel.Obj(elem) := serial])
    }

    /** `kid_generate_sub`: a genid seen before, but not with this object. */
    method NewEntry(elem: Elem, way: Way, sub: Way) returns (r: Reply)
      requires Valid() && kernel.Genuine(elem) && kernel.Obj(elem) !in serials
      requires IsWay(root, way) && Under(root, way).Node? && Under(root, way).entry.genid == elem.genid
      requires Between(Under(root, way).entry.subs, sub, KcmpRank(kernel), -kernel.Obj(elem))
      requires Under(Under(root, way).entry.subs, sub) == Leaf
      modifies this`root, this`subid, this`serials
      ensures Added(elem, old(serials), old(subid), r)
    {
      var node, e := Under(root, way), Entry(Trunc(subid), elem);
      var h' := node.entry.(subs := balanceSubs(Graft(node.entry.subs, sub, Node(Leaf, e, Leaf))));
      EntryFits(kernel, serials, subid, root, way, sub, e, h');
      SerialsGrow(serials, subid, kernel.Obj(elem));
      r := Link(e, Graft(root, way, node.(entry := h')), serials[kernel.Obj(elem) := subid]);
    }

    /**
     * `kid_generate_gen`. A known object gets the ID it has, an unknown one the next
     * of the counter, and the fresh flag tells the two apart.
     */
    method Generate(elem: Elem) returns (r: Reply)
      requires Valid() && kernel.Genuine(elem)
      modifies this
      ensures r == Error ==> Valid() && serials == old(serials) && subid == old(subid)
      ensures r == Error ==> exists n :: faults(n)
      ensures r != Error && kernel.Obj(elem) in old(serials) ==>
                && Valid() && serials == old(serials) && subid == old(subid)
                && r == Id(Trunc(serials[kernel.Obj(elem)]), false)
      ensures r != Error && kernel.Obj(elem) !in old(serials) ==> Added(elem, old(serials), old(subid), r)
    {
      var s := FindHead(elem.genid);
      if s.Missing? {
        Unknown(s.way, s, kernel.Obj(elem));
        r := NewHead(elem, s.way);
        return;
      }
      var h := Under(root, s.way).entry;
      Cut(root, s.way);
      assert h in InOrder(root);
      var t := FindEntry(h.subs, kernel.Obj(elem));
      if t.Broken? {
        return Error;
      }
      if t.Found? {
        FoundEntry(s.way, t.way);
        return Id(Under(h.subs, t.way).entry.subid, false);
      }
      Unknown(s.way, t, kernel.Obj(elem));
      r := NewEntry(elem, s.way, t.way);
    }

    /**
     * `kid_lookup_epoll_tfd` for a slot that watches `target`: an entry is found only
     * if it is the target, and unless a kcmp fails exactly when the target is known.
     */
    method LookupEpoll(genid: nat, target: int) returns (r: Option<Elem>)
      requires Valid()
      modifies this`ncalls
      ensures Valid()
      ensures r.Some? ==> kernel.Obj(r.value) == target && target in serials
      ensures (forall n :: !faults(n)) ==> (r.Some? <==> target in serials && genid == kernel.gen(target))
    {
      var s := FindHead(genid);
      if s.Missing? {
        if genid == kernel.gen(target) {
          Unknown(s.way, s, target);
        }
        return None;
      }
      var h := Under(root, s.way).entry;
      Cut(root, s.way);
      assert h in InOrder(root);
      var t := FindEntry(h.subs, target);
      if !t.Found? {
        if t.Missing? && genid == kernel.gen(target) {
          Unknown(s.way, t, target);
        }
        return None;
      }
      FoundEntry(s.way, t.way);
      r := Some(Under(h.subs, t.way).entry.elem);
    }
  }
}
