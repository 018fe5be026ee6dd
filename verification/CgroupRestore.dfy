/**
 * Dump and rebuild of the cgroup tree (criu/cgroup.c:1051-1099, 1721-1739, 2124-2188):
 * names are cut off at the length of the parent's path and appended again, one after
 * the other, to a path buffer that the whole recursion shares.
 */
module CgroupRestore {
  import opened Common
  import opened CgroupTree

  datatype Entry = Entry(name: string, children: seq<Entry>)

  /** Canonical paths, each child properly below its parent; the heads have the parent "". */
  ghost predicate Shaped(dirs: seq<Dir>, parent: string) {
    dirs != [] ==>
      && Canonical(dirs[0].path) && Shaped(dirs[0].children, dirs[0].path) && Shaped(dirs[1..], parent)
      && (parent != "" ==> IsSubPath(dirs[0].path, parent) && dirs[0].path != parent)
  }

  /** Which is what inserting canonical paths in any order gives. */
  lemma {:induction false} GoodShaped(dirs: seq<Dir>, parent: string)
    requires Good(dirs) && (forall q :: q in Paths(dirs) ==> Canonical(q))
    requires parent != "" ==> AllUnder(Paths(dirs), parent)
    ensures Shaped(dirs, parent)
  {
    if dirs != [] {
      var head, below, rest := [dirs[0].path], Paths(dirs[0].children), Paths(dirs[1..]);
      assert Paths(dirs) == head + below + rest;
      assert dirs[0].path in head && dirs[0].path in Paths(dirs);
      assert forall q :: q in below || q in rest ==> q in Paths(dirs);
      GoodShaped(dirs[0].children, dirs[0].path);
      GoodShaped(dirs[1..], parent);
    }
  }

  /** Where the name starts in the path of a child of a directory with a path that long. */
  function NameAt(poff: nat): nat {
    if poff != 1 then poff + 1 else poff
  }

  /** `dump_cg_dirs`. */
  function Dump(dirs: seq<Dir>, ghost parent: string, poff: nat): seq<Entry>
    requires Shaped(dirs, parent) && poff == |parent| && (parent == "" || Canonical(parent))
  {
    if dirs == [] then []
    else
      NameFits(dirs[0].path, parent);
      [Entry(dirs[0].path[NameAt(poff)..], Dump(dirs[0].children, dirs[0].path, |dirs[0].path|))]
      + Dump(dirs[1..], parent, poff)
  }

  lemma {:induction false} NameFits(path: string, parent: string)
    requires Canonical(path) && (parent == "" || Canonical(parent))
    requires parent != "" ==> IsSubPath(path, parent) && path != parent
    ensures NameAt(|parent|) <= |path|
    ensures parent + "/" + path[NameAt(|parent|)..] == (if parent == "/" then "/" else "") + path
  {
    if parent == "/" {
      assert path[0] == '/' && path == "/" + path[1..];
    } else if parent != "" {
      assert parent[|parent| - 1] != '/';
      assert path[..|parent|] == parent;
      assert path == path[..|parent|] + [path[|parent|]] + path[|parent| + 1..];
    } else {
      assert path == [path[0]] + path[1..];
    }
  }

  /** The paths that appending the names on the way down makes, in the order of the visit. */
  function Rebuild(prefix: string, ents: seq<Entry>): seq<string>
    decreases ents
  {
    if ents == [] then []
    else
      var p := prefix + "/" + ents[0].name;
      [p] + Rebuild(p, ents[0].children) + Rebuild(prefix, ents[1..])
  }

  /** The paths of a forest after `x`, with one more slash for each "/" on the way. */
  ghost function Expected(dirs: seq<Dir>, x: string): seq<string> {
    if dirs == [] then []
    else
      [x + dirs[0].path] + Expected(dirs[0].children, if dirs[0].path == "/" then x + "/" else x)
      + Expected(dirs[1..], x)
  }

  lemma {:induction false} RebuildCons(prefix: string, e: Entry, rest: seq<Entry>)
    ensures Rebuild(prefix, [e] + rest)
            == [prefix + "/" + e.name] + Rebuild(prefix + "/" + e.name, e.children) + Rebuild(prefix, rest)
  {
    assert ([e] + rest)[1..] == rest;
  }

  lemma {:induction false} JoinName(path: string, parent: string, x: string)
    requires Canonical(path) && (parent == "" || Canonical(parent))
    requires parent != "" ==> IsSubPath(path, parent) && path != parent
    ensures NameAt(|parent|) <= |path|
    ensures x + parent + "/" + path[NameAt(|parent|)..] == (if parent == "/" then x + "/" else x) + path
  {
    NameFits(path, parent);
    var name := path[NameAt(|parent|)..];
    assert x + parent + "/" + name == x + (parent + "/" + name);
  }

  lemma {:induction false} RebuildDump(dirs: seq<Dir>, parent: string, x: string)
    requires Shaped(dirs, parent) && (parent == "" || Canonical(parent))
    ensures Rebuild(x + parent, Dump(dirs, parent, |parent|)) == Expected(dirs, if parent == "/" then x + "/" else x)
  {
    if dirs != [] {
      var path, rest := dirs[0].path, dirs[1..];
      JoinName(path, parent, x);
      var e := Entry(path[NameAt(|parent|)..], Dump(dirs[0].children, path, |path|));
      assert Dump(dirs, parent, |parent|) == [e] + Dump(rest, parent, |parent|);
      RebuildCons(x + parent, e, Dump(rest, parent, |parent|));
      RebuildDump(dirs[0].children, path, if parent == "/" then x + "/" else x);
      RebuildDump(rest, parent, x);
    }
  }

  /** A directory "/" with a child "/a" below a mount point "m": the child is rebuilt with two slashes. */
  lemma {:induction false} TwoSlashesBelowRoot()
    ensures var dirs := [Dir("/", [Dir("/a", [])])];
            Shaped(dirs, "") && Rebuild("m", Dump(dirs, "", 0)) == ["m/", "m//a"]
  {
    var child := Dir("/a", []);
    var dirs := [Dir("/", [child])];
    assert [child][1..] == [] && dirs[1..] == [];
    assert Canonical("/") && Canonical("/a") && IsSubPath("/a", "/");
    assert Shaped([child], "/") && Shaped(dirs, "");
    RebuildDump(dirs, "", "m");
    assert "m" + "" == "m";
    assert "m/" + "/a" == "m//a" && "m" + "/" == "m/";
    assert Expected(child.children, "m/") == [] && Expected([child][1..], "m/") == [];
    assert Expected([child], "m/") == ["m//a"];
    assert Expected(dirs[1..], "m") == [];
  }

  /** Below any directory no path is "/", so nothing more is added. */
  lemma {:induction false} ExpectedBelow(dirs: seq<Dir>, parent: string, x: string, i: nat)
    requires Shaped(dirs, parent) && Canonical(parent) && i < |Paths(dirs)|
    ensures |Expected(dirs, x)| == |Paths(dirs)| && Expected(dirs, x)[i] == x + Paths(dirs)[i]
  {
    var d, rest := dirs[0], dirs[1..];
    assert d.path != "/" by {
      assert parent <= d.path && parent != d.path;
    }
    ExpectedLength(d.children, x);
    ExpectedLength(rest, x);
    var n := 1 + |Paths(d.children)|;
    if 1 <= i < n {
      ExpectedBelow(d.children, d.path, x, i - 1);
    } else if n <= i {
      ExpectedBelow(rest, parent, x, i - n);
    }
  }

  lemma {:induction false} ExpectedLength(dirs: seq<Dir>, x: string)
    ensures |Expected(dirs, x)| == |Paths(dirs)|
  {
    if dirs != [] {
      ExpectedLength(dirs[0].children, if dirs[0].path == "/" then x + "/" else x);
      ExpectedLength(dirs[1..], x);
    }
  }

  lemma {:induction false} ExpectedHeads(dirs: seq<Dir>, x: string, i: nat)
    requires Shaped(dirs, "") && i < |Paths(dirs)|
    ensures |Expected(dirs, x)| == |Paths(dirs)|
    ensures Expected(dirs, x)[i] == x + Paths(dirs)[i] || Expected(dirs, x)[i] == x + "/" + Paths(dirs)[i]
  {
    var d, rest := dirs[0], dirs[1..];
    var y := if d.path == "/" then x + "/" else x;
    ExpectedLength(d.children, y);
    ExpectedLength(rest, x);
    var n := 1 + |Paths(d.children)|;
    if 1 <= i < n {
      ExpectedBelow(d.children, d.path, y, i - 1);
    } else if n <= i {
      ExpectedHeads(rest, x, i - n);
    }
  }

  /** Repeated slashes taken for one, as path lookup does. */
  function Squeeze(s: string): string {
    if |s| < 2 then s
    else if s[0] == '/' == s[1] then Squeeze(s[1..])
    else [s[0]] + Squeeze(s[1..])
  }

  lemma {:induction false} SqueezeSame(s: string)
    requires forall i :: 0 < i < |s| ==> !(s[i - 1] == '/' && s[i] == '/')
    ensures Squeeze(s) == s
  {
    if |s| >= 2 {
      assert !(s[1 - 1] == '/' && s[1] == '/');
      forall i | 0 < i < |s[1..]|
        ensures !(s[1..][i - 1] == '/' && s[1..][i] == '/')
      {
        assert s[1..][i - 1] == s[(i + 1) - 1] && s[1..][i] == s[i + 1];
      }
      SqueezeSame(s[1..]);
    }
  }

  lemma {:induction false} SqueezeCanonical(q: string)
    requires Canonical(q)
    ensures Squeeze(q) == q && Squeeze("/" + q) == q
  {
    SqueezeSame(q);
    assert ("/" + q)[1..] == q;
  }

  lemma {:induction false} AfterBase(base: string, q: string)
    requires Canonical(q)
    ensures base <= base + q && Squeeze((base + q)[|base|..]) == q
    ensures base <= base + "/" + q && Squeeze((base + "/" + q)[|base|..]) == q
  {
    SqueezeCanonical(q);
    assert (base + q)[|base|..] == q && (base + "/" + q)[|base|..] == "/" + q;
  }

  /**
   * For every order in which canonical paths were inserted: dumping the tree and
   * appending the names below `base` makes exactly those paths, in the same order,
   * up to repeated slashes.
   */
  lemma {:induction false} RebuildsPaths(dirs: seq<Dir>, base: string, i: nat)
    requires Good(dirs) && (forall q :: q in Paths(dirs) ==> Canonical(q)) && i < |Paths(dirs)|
    ensures Shaped(dirs, "") && |Rebuild(base, Dump(dirs, "", 0))| == |Paths(dirs)|
    ensures base <= Rebuild(base, Dump(dirs, "", 0))[i]
    ensures Squeeze(Rebuild(base, Dump(dirs, "", 0))[i][|base|..]) == Paths(dirs)[i]
  {
    GoodShaped(dirs, "");
    RebuildDump(dirs, "", base);
    assert base + "" == base;
    ExpectedHeads(dirs, base, i);
    AfterBase(base, Paths(dirs)[i]);
  }

  // ---- The shared path buffer ----

  /** `append_cgroup_dir`: print "/name" at `off`, cut short if it does not fit; nothing if `off` is beyond the end. */
  method AppendDir(buf: array<char>, off: nat, name: string) returns (ok: bool, newOff: nat)
    modifies buf
    ensures ok <==> off + 1 + |name| < buf.Length
    ensures buf[..Min(off, buf.Length)] == old(buf[..Min(off, buf.Length)])
    ensures ok ==> newOff == off + 1 + |name| && buf[..newOff] == old(buf[..off]) + "/" + name && buf[newOff] == '\0'
  {
    if off >= buf.Length {
      return false, off;
    }
    var text := "/" + name;
    var n := Min(|text|, buf.Length - off - 1);
    forall i | 0 <= i < n {
      buf[off + i] := text[i];
    }
    buf[off + n] := '\0';
    ok, newOff := n == |text|, off + n;
    assert ok ==> buf[off..newOff] == text;
    assert ok ==> buf[..newOff] == buf[..off] + buf[off..newOff];
  }

  /** Restoring the special properties of a directory prints their names behind its path. */
  method UseBeyond(buf: array<char>, off: nat, props: seq<string>)
    requires off < buf.Length
    modifies buf
    ensures buf[..off] == old(buf[..off])
  {
    for i := 0 to |props|
      invariant buf[..off] == old(buf[..off])
    {
      var _, _ := AppendDir(buf, off, props[i]);
    }
  }

  ghost predicate Possible(qs: seq<string>, size: nat, io: string -> bool) {
    forall i :: 0 <= i < |qs| ==> |qs[i]| < size && io(qs[i])
  }

  lemma {:induction false} PossibleBoth(a: seq<string>, b: seq<string>, size: nat, io: string -> bool)
    ensures Possible(a + b, size, io) <==> Possible(a, size, io) && Possible(b, size, io)
  {
    if Possible(a + b, size, io) {
      assert forall i :: 0 <= i < |a| ==> a[i] == (a + b)[i];
      assert forall i :: 0 <= i < |b| ==> b[i] == (a + b)[|a| + i];
    }
  }

  ghost function RebuildOne(prefix: string, e: Entry): seq<string> {
    [prefix + "/" + e.name] + Rebuild(prefix + "/" + e.name, e.children)
  }

  /** One round of the loop of `prepare_cgroup_dirs`: a directory and all below it. */
  method PrepareOne(buf: array<char>, off: nat, e: Entry, props: seq<string>, io: string -> bool)
    returns (ok: bool, made: seq<string>)
    requires off <= buf.Length
    modifies buf
    ensures buf[..off] == old(buf[..off])
    ensures made <= RebuildOne(old(buf[..off]), e) && (ok ==> made == RebuildOne(old(buf[..off]), e))
    ensures ok <==> Possible(RebuildOne(old(buf[..off]), e), buf.Length, io)
    decreases e.children, 1
  {
    ghost var prefix := buf[..off];
    ghost var p := prefix + "/" + e.name;
    PossibleBoth([p], Rebuild(p, e.children), buf.Length, io);
    assert [p][0] == p;
    var fits, off2 := AppendDir(buf, off, e.name);
    if !fits {
      return false, [];
    }
    var here := buf[..off2];
    assert here == p;
    if !io(here) {
      return false, [here];
    }
    UseBeyond(buf, off2, props);
    var below, more := Prepare(buf, off2, e.children, props, io);
    assert buf[..off] == buf[..off2][..off];
    ok, made := below, [here] + more;
  }

  /**
   * `prepare_cgroup_dirs`, where `io` tells whether a directory can be looked up, made
   * and given its permissions and special properties. The directories visited are those of Rebuild in order;
   * all are reached exactly when all fit the buffer and none fails; and the buffer up
   * to `off` is left as it was for the next sibling of the caller.
   */
  method Prepare(buf: array<char>, off: nat, ents: seq<Entry>, props: seq<string>, io: string -> bool)
    returns (ok: bool, made: seq<string>)
    requires off <= buf.Length
    modifies buf
    ensures buf[..off] == old(buf[..off])
    ensures made <= Rebuild(old(buf[..off]), ents) && (ok ==> made == Rebuild(old(buf[..off]), ents))
    ensures ok <==> Possible(Rebuild(old(buf[..off]), ents), buf.Length, io)
    decreases ents, 0
  {
    ghost var prefix := buf[..off];
    made := [];
    for i := 0 to |ents|
      invariant buf[..off] == prefix
      invariant made + Rebuild(prefix, ents[i..]) == Rebuild(prefix, ents) && Possible(made, buf.Length, io)
    {
      ghost var one, rest := RebuildOne(prefix, ents[i]), Rebuild(prefix, ents[i + 1..]);
      assert ents[i..][1..] == ents[i + 1..] && ents[i..][0] == ents[i];
      assert Rebuild(prefix, ents) == made + one + rest;
      PossibleBoth(made, one, buf.Length, io);
      PossibleBoth(made + one, rest, buf.Length, io);
      var more;
      ok, more := PrepareOne(buf, off, ents[i], props, io);
      made := made + more;
      if !ok {
        return;
      }
    }
    ok := true;
  }
}
