/**
 * The tree of cgroup directories of a controller (criu/cgroup.c:245-265, 508-525):
 * paths come in any order and are sorted into a tree by a search for the innermost
 * directory that each lies below.
 */
module CgroupTree {
  datatype Dir = Dir(path: string, children: seq<Dir>)

  /** criu/include/util.h:210-253: `sub` is `path` or leads to it at a component boundary. */
  predicate IsSubPath(path: string, sub: string) {
    sub != "" && sub <= path && (sub[|sub| - 1] == '/' || |path| == |sub| || path[|sub|] == '/')
  }

  /** Slashes only between components, and one in front. */
  ghost predicate Canonical(p: string) {
    && p != "" && p[0] == '/'
    && (forall i :: 0 < i < |p| ==> !(p[i - 1] == '/' && p[i] == '/'))
    && (|p| > 1 ==> p[|p| - 1] != '/')
  }

  /** All paths of a forest, parents first. */
  function Paths(dirs: seq<Dir>): seq<string> {
    if dirs == [] then [] else [dirs[0].path] + Paths(dirs[0].children) + Paths(dirs[1..])
  }

  ghost predicate AllUnder(qs: seq<string>, p: string) {
    forall q :: q in qs ==> IsSubPath(q, p) && q != p
  }

  ghost predicate NoneUnder(qs: seq<string>, p: string) {
    forall q :: q in qs ==> !IsSubPath(q, p)
  }

  /**
   * What every order of insertions leads to: below a directory is only what extends
   * it, and nothing that extends it stands in a later sibling.
   */
  ghost predicate Good(dirs: seq<Dir>) {
    dirs != [] ==>
      && dirs[0].path != "" && Good(dirs[0].children) && Good(dirs[1..])
      && AllUnder(Paths(dirs[0].children), dirs[0].path) && NoneUnder(Paths(dirs[1..]), dirs[0].path)
  }

  // ---- Search ----

  /** Where the search of `find_dir` stops: the indices from the heads down. */
  datatype Match = Exact(at: seq<nat>) | Parent(at: seq<nat>) | NoMatch

  function Later(m: Match): Match {
    match m
    case NoMatch => NoMatch
    case Exact(at) => Exact(if at == [] then [] else [at[0] + 1] + at[1..])
    case Parent(at) => Parent(if at == [] then [] else [at[0] + 1] + at[1..])
  }

  function Find(path: string, dirs: seq<Dir>): Match {
    if dirs == [] then NoMatch
    else if dirs[0].path == path then Exact([0])
    else if IsSubPath(path, dirs[0].path) then
      match Find(path, dirs[0].children)
      case NoMatch => Parent([0])
      case Exact(at) => Exact([0] + at)
      case Parent(at) => Parent([0] + at)
    else Later(Find(path, dirs[1..]))
  }

  ghost predicate IsAt(dirs: seq<Dir>, at: seq<nat>) {
    at != [] && at[0] < |dirs| && (|at| > 1 ==> IsAt(dirs[at[0]].children, at[1..]))
  }

  /** `list_add_tail` to the children of the directory at `at`. */
  function Attach(dirs: seq<Dir>, at: seq<nat>, d: Dir): seq<Dir>
    requires IsAt(dirs, at)
  {
    var p := dirs[at[0]];
    dirs[at[0] := p.(children := if |at| == 1 then p.children + [d] else Attach(p.children, at[1..], d))]
  }

  /** The effect of one `add_cgroup`, seen from the top. */
  function Insert(path: string, dirs: seq<Dir>): seq<Dir> {
    if dirs == [] then [Dir(path, [])]
    else if dirs[0].path == path then dirs
    else if IsSubPath(path, dirs[0].path) then [dirs[0].(children := Insert(path, dirs[0].children))] + dirs[1..]
    else [dirs[0]] + Insert(path, dirs[1..])
  }

  lemma {:induction false} AttachLater(dirs: seq<Dir>, at: seq<nat>, d: Dir)
    requires dirs != [] && IsAt(dirs[1..], at)
    ensures IsAt(dirs, Later(Parent(at)).at)
    ensures Attach(dirs, Later(Parent(at)).at, d) == [dirs[0]] + Attach(dirs[1..], at, d)
  {
    var at' := Later(Parent(at)).at;
    assert at'[1..] == at[1..] && dirs[at'[0]] == dirs[1..][at[0]];
  }

  lemma {:induction false} AttachBelow(dirs: seq<Dir>, at: seq<nat>, d: Dir)
    requires dirs != [] && IsAt(dirs[0].children, at)
    ensures IsAt(dirs, [0] + at)
    ensures Attach(dirs, [0] + at, d) == [dirs[0].(children := Attach(dirs[0].children, at, d))] + dirs[1..]
  {
    assert ([0] + at)[1..] == at;
  }

  /** Linking where the search stopped is inserting. */
  lemma {:induction false} FindThenLink(path: string, dirs: seq<Dir>)
    ensures match Find(path, dirs)
            case Exact(_) => Insert(path, dirs) == dirs
            case Parent(at) => IsAt(dirs, at) && Insert(path, dirs) == Attach(dirs, at, Dir(path, []))
            case NoMatch => Insert(path, dirs) == dirs + [Dir(path, [])]
  {
    if dirs != [] && dirs[0].path != path {
      if IsSubPath(path, dirs[0].path) {
        var m := Find(path, dirs[0].children);
        FindThenLink(path, dirs[0].children);
        if m.Parent? {
          AttachBelow(dirs, m.at, Dir(path, []));
        }
      } else {
        var m := Find(path, dirs[1..]);
        FindThenLink(path, dirs[1..]);
        if m.Parent? {
          AttachLater(dirs, m.at, Dir(path, []));
        }
      }
    }
  }

  /** A path already in the forest is found exactly and changes nothing. */
  lemma {:induction false} FoundIffThere(path: string, dirs: seq<Dir>)
    requires Good(dirs) && path != ""
    ensures Find(path, dirs).Exact? <==> path in Paths(dirs)
  {
    if dirs != [] && dirs[0].path != path {
      if IsSubPath(path, dirs[0].path) {
        FoundIffThere(path, dirs[0].children);
      } else {
        FoundIffThere(path, dirs[1..]);
      }
    }
  }

  // ---- What the search finds ----

  /** `p` is a directory above `path`: it leads to it with a slash behind, or is the root. */
  predicate Above(p: string, path: string) { p + "/" <= path || (p == "/" && path != "/" && p <= path) }

  /** Of canonical paths one is the sub path of another exactly when it is that path or above it. */
  lemma {:induction false} SubPathMeans(path: string, p: string)
    requires Canonical(path) && Canonical(p)
    ensures IsSubPath(path, p) <==> p == path || Above(p, path)
  {
    if IsSubPath(path, p) && p != path && p != "/" {
      assert path[|p|] == '/' && path[..|p|] == p;
      assert p + "/" == path[..|p| + 1];
    }
    if p + "/" <= path {
      assert path[..|p| + 1] == p + "/" && path[|p|] == (p + "/")[|p|];
      assert path[..|p|] == (p + "/")[..|p|] == p;
    }
  }

  lemma {:induction false} SubPathTrans(path: string, q: string, p: string)
    requires IsSubPath(path, q) && IsSubPath(q, p)
    ensures IsSubPath(path, p)
  {
  }

  /** Two sub paths of one path: the shorter is one of the longer. */
  lemma {:induction false} SubPathsNest(path: string, p: string, q: string)
    requires IsSubPath(path, p) && IsSubPath(path, q) && |p| <= |q|
    ensures IsSubPath(q, p)
  {
    assert q == path[..|q|] && p == path[..|p|];
  }

  /** The directory at a position. */
  function DirAt(dirs: seq<Dir>, at: seq<nat>): (d: Dir)
    requires IsAt(dirs, at)
  {
    if |at| == 1 then dirs[at[0]] else DirAt(dirs[at[0]].children, at[1..])
  }

  /** Linking adds the new directory behind the children of the one found. */
  lemma {:induction false} AttachAt(dirs: seq<Dir>, at: seq<nat>, d: Dir)
    requires IsAt(dirs, at)
    ensures IsAt(Attach(dirs, at, d), at)
    ensures DirAt(Attach(dirs, at, d), at) == DirAt(dirs, at).(children := DirAt(dirs, at).children + [d])
  {
    if |at| > 1 {
      AttachAt(dirs[at[0]].children, at[1..], d);
    }
  }

  /** The longest sub path of `path` in the forest is `p`. */
  ghost predicate Innermost(path: string, dirs: seq<Dir>, p: string) {
    p in Paths(dirs) && IsSubPath(path, p) && forall q :: q in Paths(dirs) && IsSubPath(path, q) ==> |q| <= |p|
  }

  /** The directory at `at` is the innermost that `path` lies below, or is the directory itself. */
  ghost predicate LeadsTo(path: string, dirs: seq<Dir>, at: seq<nat>) {
    IsAt(dirs, at) && Innermost(path, dirs, DirAt(dirs, at).path)
  }

  lemma {:induction false} BelowFirst(path: string, dirs: seq<Dir>, at: seq<nat>)
    requires Good(dirs) && dirs != [] && IsSubPath(path, dirs[0].path) && LeadsTo(path, dirs[0].children, at)
    ensures LeadsTo(path, dirs, [0] + at) && DirAt(dirs, [0] + at) == DirAt(dirs[0].children, at)
  {
    assert ([0] + at)[1..] == at;
    var p := DirAt(dirs[0].children, at).path;
    forall q | q in Paths(dirs) && IsSubPath(path, q)
      ensures |q| <= |p|
    {
      assert IsSubPath(p, dirs[0].path);
      if q in Paths(dirs[1..]) && |q| > |p| {
        SubPathsNest(path, dirs[0].path, q);
      }
    }
  }

  lemma {:induction false} FirstItself(path: string, dirs: seq<Dir>)
    requires Good(dirs) && dirs != [] && IsSubPath(path, dirs[0].path)
    requires forall q :: q in Paths(dirs[0].children) ==> !IsSubPath(path, q)
    ensures LeadsTo(path, dirs, [0]) && DirAt(dirs, [0]) == dirs[0]
  {
    var p := dirs[0].path;
    forall q | q in Paths(dirs) && IsSubPath(path, q)
      ensures |q| <= |p|
    {
      if q in Paths(dirs[1..]) && |q| > |p| {
        SubPathsNest(path, p, q);
      }
    }
  }

  lemma {:induction false} NotBelowFirst(path: string, dirs: seq<Dir>, q: string)
    requires Good(dirs) && dirs != [] && !IsSubPath(path, dirs[0].path) && q in Paths(dirs) && IsSubPath(path, q)
    ensures q in Paths(dirs[1..])
  {
    if q in Paths(dirs[0].children) {
      SubPathTrans(path, q, dirs[0].path);
    }
  }

  lemma {:induction false} BelowLater(path: string, dirs: seq<Dir>, at: seq<nat>)
    requires Good(dirs) && dirs != [] && !IsSubPath(path, dirs[0].path) && LeadsTo(path, dirs[1..], at)
    ensures LeadsTo(path, dirs, [at[0] + 1] + at[1..])
    ensures DirAt(dirs, [at[0] + 1] + at[1..]) == DirAt(dirs[1..], at)
  {
    var at' := [at[0] + 1] + at[1..];
    assert at'[1..] == at[1..] && dirs[at'[0]] == dirs[1..][at[0]];
    forall q | q in Paths(dirs) && IsSubPath(path, q)
      ensures |q| <= |DirAt(dirs[1..], at).path|
    {
      NotBelowFirst(path, dirs, q);
    }
  }

  /** The search ends at the innermost directory that the path lies below, and at none exactly when there is none. */
  lemma {:induction false} FindInnermost(path: string, dirs: seq<Dir>)
    requires Good(dirs) && path != ""
    ensures match Find(path, dirs)
            case Exact(at) => LeadsTo(path, dirs, at) && DirAt(dirs, at).path == path
            case Parent(at) => LeadsTo(path, dirs, at) && DirAt(dirs, at).path != path
            case NoMatch => forall q :: q in Paths(dirs) ==> !IsSubPath(path, q)
  {
    if dirs == [] {
    } else if dirs[0].path == path {
      forall q | q in Paths(dirs) && IsSubPath(path, q)
        ensures |q| <= |path|
      {
      }
      assert DirAt(dirs, [0]) == dirs[0];
    } else if IsSubPath(path, dirs[0].path) {
      FindInnermost(path, dirs[0].children);
      match Find(path, dirs[0].children)
      case NoMatch => FirstItself(path, dirs);
      case Exact(at) => BelowFirst(path, dirs, at);
      case Parent(at) => BelowFirst(path, dirs, at);
    } else {
      FindInnermost(path, dirs[1..]);
      match Find(path, dirs[1..])
      case NoMatch =>
        forall q | q in Paths(dirs)
          ensures !IsSubPath(path, q)
        {
          if IsSubPath(path, q) {
            NotBelowFirst(path, dirs, q);
          }
        }
      case Exact(at) => BelowLater(path, dirs, at);
      case Parent(at) => BelowLater(path, dirs, at);
    }
  }

  ghost predicate AllCanonical(dirs: seq<Dir>) { forall q :: q in Paths(dirs) ==> Canonical(q) }

  lemma {:induction false} ChildrenIn(dirs: seq<Dir>, at: seq<nat>, q: string)
    requires Good(dirs) && IsAt(dirs, at) && q in Paths(DirAt(dirs, at).children)
    ensures q in Paths(dirs) && IsSubPath(q, DirAt(dirs, at).path) && q != DirAt(dirs, at).path
    decreases |at|, |dirs|
  {
    if at[0] > 0 {
      var at' := [at[0] - 1] + at[1..];
      assert at'[1..] == at[1..] && dirs[1..][at'[0]] == dirs[at[0]];
      ChildrenIn(dirs[1..], at', q);
    } else if |at| > 1 {
      ChildrenIn(dirs[0].children, at[1..], q);
    }
  }

  /**
   * In a tree of canonical paths the search misses only a path that has no directory above it. Its parent is above
   * the path, all others above the path are above the parent or it, and none of its children is above the path.
   */
  lemma {:induction false} FindsParent(path: string, dirs: seq<Dir>)
    requires Good(dirs) && Canonical(path) && AllCanonical(dirs)
    ensures Find(path, dirs).NoMatch? <==> path !in Paths(dirs) && forall q :: q in Paths(dirs) ==> !Above(q, path)
    ensures Find(path, dirs).Parent? ==>
              && IsAt(dirs, Find(path, dirs).at)
              && var d := DirAt(dirs, Find(path, dirs).at);
              && d.path in Paths(dirs) && Above(d.path, path)
              && (forall q :: q in Paths(dirs) && Above(q, path) ==> q == d.path || Above(q, d.path))
              && (forall q :: q in Paths(d.children) ==> !Above(q, path))
  {
    FindInnermost(path, dirs);
    FoundIffThere(path, dirs);
    forall q | q in Paths(dirs)
      ensures IsSubPath(path, q) <==> q == path || Above(q, path)
    {
      SubPathMeans(path, q);
    }
    if Find(path, dirs).Parent? {
      var d := DirAt(dirs, Find(path, dirs).at);
      forall q | q in Paths(dirs) && Above(q, path)
        ensures q == d.path || Above(q, d.path)
      {
        SubPathsNest(path, q, d.path);
        SubPathMeans(d.path, q);
      }
      forall q | q in Paths(d.children)
        ensures !Above(q, path)
      {
        ChildrenIn(dirs, Find(path, dirs).at, q);
      }
    }
  }

  // ---- Any order of insertions ----

  ghost function Bag(dirs: seq<Dir>): multiset<string> {
    if dirs == [] then multiset{} else multiset{dirs[0].path} + Bag(dirs[0].children) + Bag(dirs[1..])
  }

  lemma {:induction false} BagOfPaths(dirs: seq<Dir>)
    ensures multiset(Paths(dirs)) == Bag(dirs)
  {
    if dirs != [] {
      BagOfPaths(dirs[0].children);
      BagOfPaths(dirs[1..]);
    }
  }

  lemma {:induction false} BagCons(d: Dir, rest: seq<Dir>)
    ensures Bag([d] + rest) == multiset{d.path} + Bag(d.children) + Bag(rest)
  {
    assert ([d] + rest)[1..] == rest;
  }

  lemma {:induction false} OneMore(a: multiset<string>, b: multiset<string>, c: multiset<string>, p: multiset<string>)
    ensures a + (b + p) + c == a + b + c + p && a + b + (c + p) == a + b + c + p
  {
  }

  lemma {:induction false} InsertBag(path: string, dirs: seq<Dir>)
    requires !Find(path, dirs).Exact?
    ensures Bag(Insert(path, dirs)) == Bag(dirs) + multiset{path}
  {
    if dirs == [] {
      BagCons(Dir(path, []), []);
    } else {
      var d, rest := dirs[0], dirs[1..];
      OneMore(multiset{d.path}, Bag(d.children), Bag(rest), multiset{path});
      if IsSubPath(path, d.path) {
        InsertBag(path, d.children);
        BagCons(d.(children := Insert(path, d.children)), rest);
      } else {
        InsertBag(path, rest);
        BagCons(d, Insert(path, rest));
      }
    }
  }

  /** A new path is added once and the others stay as they were. */
  lemma {:induction false} InsertPaths(path: string, dirs: seq<Dir>)
    requires Good(dirs) && path != "" && path !in Paths(dirs)
    ensures multiset(Paths(Insert(path, dirs))) == multiset(Paths(dirs)) + multiset{path}
  {
    FoundIffThere(path, dirs);
    InsertBag(path, dirs);
    BagOfPaths(dirs);
    BagOfPaths(Insert(path, dirs));
  }

  lemma {:induction false} InsertMembers(path: string, dirs: seq<Dir>, q: string)
    requires Good(dirs) && path != ""
    ensures q in Paths(Insert(path, dirs)) <==> q in Paths(dirs) || q == path
  {
    FoundIffThere(path, dirs);
    FindThenLink(path, dirs);
    if path !in Paths(dirs) {
      InsertPaths(path, dirs);
      assert q in Paths(Insert(path, dirs)) <==> q in multiset(Paths(Insert(path, dirs)));
      assert q in Paths(dirs) <==> q in multiset(Paths(dirs));
    }
  }

  lemma {:induction false} InsertGood(path: string, dirs: seq<Dir>)
    requires Good(dirs) && path != ""
    ensures Good(Insert(path, dirs))
  {
    if dirs == [] {
      assert Good([]);
      assert Paths([]) == [];
    } else if dirs[0].path != path {
      if IsSubPath(path, dirs[0].path) {
        InsertGood(path, dirs[0].children);
        forall q | q in Paths(Insert(path, dirs[0].children))
          ensures IsSubPath(q, dirs[0].path) && q != dirs[0].path
        {
          InsertMembers(path, dirs[0].children, q);
        }
      } else {
        InsertGood(path, dirs[1..]);
        forall q | q in Paths(Insert(path, dirs[1..]))
          ensures !IsSubPath(q, dirs[0].path)
        {
          InsertMembers(path, dirs[1..], q);
        }
      }
    }
  }

  /** Each path is in the tree at most once. */
  lemma {:induction false} GoodUnique(dirs: seq<Dir>, q: string)
    requires Good(dirs)
    ensures multiset(Paths(dirs))[q] <= 1
  {
    if dirs != [] {
      GoodUnique(dirs[0].children, q);
      GoodUnique(dirs[1..], q);
      var d := dirs[0];
      assert q in multiset(Paths(d.children)) ==> q in Paths(d.children);
      assert q in multiset(Paths(dirs[1..])) ==> q in Paths(dirs[1..]);
      assert IsSubPath(d.path, d.path);
    }
  }

  class Controller {
    var heads: seq<Dir>

    ghost predicate Valid()
      reads this
    {
      Good(heads)
    }

    constructor ()
      ensures Valid() && heads == []
    {
      heads := [];
    }

    /** The tree part of `add_cgroup`. */
    method Add(path: string) returns (isNew: bool)
      requires Valid() && path != ""
      modifies this
      ensures Valid() && (isNew <==> path !in old(Paths(heads)))
      ensures heads == Insert(path, old(heads)) && (!isNew ==> heads == old(heads))
      ensures isNew ==> multiset(Paths(heads)) == old(multiset(Paths(heads))) + multiset{path}
      ensures forall q :: q in Paths(heads) <==> q in old(Paths(heads)) || q == path
    {
      forall q
        ensures q in Paths(Insert(path, heads)) <==> q in Paths(heads) || q == path
      {
        InsertMembers(path, heads, q);
      }
      FindThenLink(path, heads);
      FoundIffThere(path, heads);
      InsertGood(path, heads);
      if path !in Paths(heads) {
        InsertPaths(path, heads);
      }
      match Find(path, heads) {
        case Exact(_) => return false;
        case Parent(at) => heads := Attach(heads, at, Dir(path, []));
        case NoMatch => heads := heads + [Dir(path, [])];
      }
      isNew := true;
    }
  }

  /** Whatever the order: the tree holds each path given, once, and no other. */
  method Collect(paths: seq<string>) returns (heads: seq<Dir>)
    requires "" !in paths
    ensures Good(heads)
    ensures forall q :: q in Paths(heads) <==> q in paths
    ensures forall q :: multiset(Paths(heads))[q] <= 1
  {
    var c := new Controller();
    for i := 0 to |paths|
      invariant c.Valid()
      invariant forall q :: q in Paths(c.heads) <==> q in paths[..i]
    {
      var isNew := c.Add(paths[i]);
      assert paths[..i + 1] == paths[..i] + [paths[i]];
    }
    heads := c.heads;
    assert paths[..|paths|] == paths;
    forall q ensures multiset(Paths(heads))[q] <= 1 {
      GoodUnique(heads, q);
    }
  }
}
