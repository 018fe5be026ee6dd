/**
 * Parent directories made for a restored file and removed again
 * (criu/files-reg.c:1960-2042). Both routines walk a path by overwriting its slashes
 * with terminators in the caller's buffer and putting them back.
 */
module ParentDirs {
  import opened Common

  // ---- Directories ----

  /** A directory is below another. */
  predicate Below(d: string, p: string) {
    p + "/" <= d
  }

  /** Every directory's parents exist. */
  ghost predicate Closed(dirs: set<string>) {
    forall d, k :: d in dirs && 0 <= k < |d| && d[k] == '/' ==> d[..k] in dirs
  }

  datatype Outcome = Done | Exists | Failed

  class Fs {
    const statFails: string -> bool
    const mkdirFails: string -> bool
    const rmdirFails: string -> bool
    var dirs: set<string>

    /** fstatat, for which the empty path is the directory it starts from. */
    method Stat(p: string) returns (r: Outcome)
      ensures r == if statFails(p) then Failed else if p == "" || p in dirs then Exists else Done
    {
      r := if statFails(p) then Failed else if p == "" || p in dirs then Exists else Done;
    }

    /** mkdirat: the name must not be empty and the parent must be there. */
    method Mkdir(p: string) returns (r: Outcome)
      modifies this
      ensures r == Exists <==> p != "" && p in old(dirs)
      ensures r == Failed <==>
                p == "" || (p !in old(dirs)
                  && (mkdirFails(p) || exists k :: 0 <= k < |p| && p[k] == '/' && p[..k] !in old(dirs)))
      ensures dirs == if r == Done then old(dirs) + {p} else old(dirs)
    {
      if p != "" && p in dirs {
        return Exists;
      }
      if p == "" || mkdirFails(p) || exists k :: 0 <= k < |p| && p[k] == '/' && p[..k] !in dirs {
        return Failed;
      }
      dirs := dirs + {p};
      r := Done;
    }

    /** unlinkat of a directory: it must be empty. */
    method Rmdir(p: string) returns (ok: bool)
      modifies this
      ensures ok <==> p in old(dirs) && !rmdirFails(p) && forall d :: d in old(dirs) ==> !Below(d, p)
      ensures dirs == if ok then old(dirs) - {p} else old(dirs)
    {
      ok := p in dirs && !rmdirFails(p) && forall d :: d in dirs ==> !Below(d, p);
      if ok {
        dirs := dirs - {p};
      }
    }
  }

  // ---- Paths ----

  /** The parents of `s` that end at a slash from `lo` up to `hi`. */
  ghost function Chain(s: string, lo: nat, hi: nat): set<string>
    requires hi <= |s|
  {
    set k | lo <= k < hi && s[k] == '/' :: s[..k]
  }

  ghost function Count(s: string, lo: nat, hi: nat): nat
    requires hi <= |s|
    decreases hi
  {
    if hi <= lo then 0 else Count(s, lo, hi - 1) + if s[hi - 1] == '/' then 1 else 0
  }

  ghost predicate NoSlash(s: string, lo: nat, hi: nat) {
    forall i :: lo <= i < hi && i < |s| ==> s[i] != '/'
  }

  lemma {:induction false} CountGap(s: string, lo: nat, mid: nat, hi: nat)
    requires mid <= hi <= |s| && NoSlash(s, mid, hi)
    ensures Count(s, lo, hi) == Count(s, lo, mid)
    decreases hi
  {
    if mid < hi {
      CountGap(s, lo, mid, hi - 1);
    }
  }

  lemma {:induction false} ChainGap(s: string, lo: nat, mid: nat, hi: nat)
    requires mid <= hi <= |s| && NoSlash(s, mid, hi)
    ensures Chain(s, lo, hi) == Chain(s, lo, mid)
  {
  }

  lemma {:induction false} ChainNext(s: string, lo: nat, q: nat)
    requires lo <= q < |s| && s[q] == '/'
    ensures Chain(s, lo, q + 1) == Chain(s, lo, q) + {s[..q]}
    ensures Count(s, lo, q + 1) == Count(s, lo, q) + 1
  {
    assert s[..q] in Chain(s, lo, q + 1);
  }

  lemma {:induction false} CountPositive(s: string, lo: nat, hi: nat)
    requires hi <= |s|
    ensures Count(s, lo, hi) > 0 <==> exists k :: lo <= k < hi && s[k] == '/'
  {
    if lo < hi {
      CountPositive(s, lo, hi - 1);
      if exists k :: lo <= k < hi && s[k] == '/' {
        var k :| lo <= k < hi && s[k] == '/';
        assert k == hi - 1 || lo <= k < hi - 1;
      }
    }
  }

  ghost predicate NoDoubleSlash(s: string) {
    forall i :: 0 < i < |s| ==> !(s[i - 1] == '/' && s[i] == '/')
  }

  /** The buffer holds the C string `t`. */
  ghost predicate IsStr(buf: array<char>, t: string)
    reads buf
  {
    |t| < buf.Length && buf[|t|] == '\0' && buf[..|t|] == t && '\0' !in t
  }

  lemma {:induction false} StrChars(buf: array<char>, t: string)
    requires IsStr(buf, t)
    ensures forall i :: 0 <= i < |t| ==> buf[i] == t[i] && buf[i] != '\0'
  {
    assert forall i :: 0 <= i < |t| ==> buf[i] == buf[..|t|][i] && t[i] in t;
  }

  method StrChr(buf: array<char>, ghost t: string, from: nat) returns (r: Option<nat>)
    requires IsStr(buf, t) && from <= |t|
    ensures r.Some? ==> from <= r.value < |t| && t[r.value] == '/' && NoSlash(t, from, r.value)
    ensures r.None? ==> NoSlash(t, from, |t|)
  {
    StrChars(buf, t);
    var i := from;
    while buf[i] != '\0'
      invariant from <= i <= |t| && NoSlash(t, from, i)
      decreases |t| - i
    {
      if buf[i] == '/' {
        return Some(i);
      }
      i := i + 1;
    }
    r := None;
  }

  method StrRChr(buf: array<char>, ghost t: string) returns (r: Option<nat>)
    requires IsStr(buf, t)
    ensures r.Some? ==> r.value < |t| && t[r.value] == '/' && NoSlash(t, r.value + 1, |t|)
    ensures r.None? ==> NoSlash(t, 0, |t|)
  {
    StrChars(buf, t);
    var i := 0;
    r := None;
    while buf[i] != '\0'
      invariant 0 <= i <= |t|
      invariant r.Some? ==> r.value < i && t[r.value] == '/' && NoSlash(t, r.value + 1, i)
      invariant r.None? ==> NoSlash(t, 0, i)
      decreases |t| - i
    {
      if buf[i] == '/' {
        r := Some(i);
      }
      i := i + 1;
    }
  }

  // ---- Removing ----

  /** The chain from `f` on is there, and nothing else is below it. */
  ghost predicate Removable(dirs: set<string>, t: string, f: nat) {
    && (forall k :: f <= k < |t| && t[k] == '/' ==> t[..k] in dirs)
    && (forall d, k :: d in dirs && f <= k < |t| && t[k] == '/' && Below(d, t[..k]) ==> d in Chain(t, f, |t|))
  }

  /** The part of the chain that ends below `cur` is gone: the next directory up is empty. */
  lemma {:induction false} NextIsEmpty(was: set<string>, now: set<string>, t: string, f: nat, p: nat, cur: nat,
          d: string)
    requires f <= p < cur <= |t| && t[p] == '/' && NoSlash(t, p + 1, cur) && Removable(was, t, f)
    requires now == was - Chain(t, cur, |t|) && d in now
    ensures !Below(d, t[..p])
  {
    assert forall k :: cur <= k < |t| && t[k] == '/' ==> t[..k] in Chain(t, cur, |t|);
    if d in Chain(t, f, |t|) {
      var k :| f <= k < |t| && t[k] == '/' && d == t[..k];
      assert |d| <= p;
    }
  }

  lemma {:induction false} ChainSplit(t: string, p: nat, cur: nat)
    requires p < cur <= |t| && t[p] == '/' && NoSlash(t, p + 1, cur)
    ensures Chain(t, p, |t|) == Chain(t, cur, |t|) + {t[..p]}
  {
    assert t[..p] in Chain(t, p, |t|);
    forall d | d in Chain(t, p, |t|)
      ensures d in Chain(t, cur, |t|) || d == t[..p]
    {
      var k :| p <= k < |t| && t[k] == '/' && d == t[..k];
      assert k == p || k >= cur;
    }
  }

  lemma {:induction false} CountSplit(s: string, lo: nat, mid: nat, hi: nat)
    requires lo <= mid <= hi <= |s|
    ensures Count(s, lo, hi) == Count(s, lo, mid) + Count(s, mid, hi)
    decreases hi
  {
    if mid < hi {
      CountSplit(s, lo, mid, hi - 1);
    }
  }

  /** One slash further up. */
  lemma {:induction false} CountUp(t: string, p: nat, cur: nat)
    requires p < cur <= |t| && t[p] == '/' && NoSlash(t, p + 1, cur)
    ensures Count(t, p, |t|) == Count(t, cur, |t|) + 1
  {
    CountSplit(t, p, cur, |t|);
    CountGap(t, p, p + 1, cur);
    ChainNext(t, p, p);
  }

  /** The chain to be removed has not been used up. */
  lemma {:induction false} MoreToRemove(t: string, f: nat, cur: nat, p: nat)
    requires f <= |t| && cur <= |t| && p < cur && t[p] == '/' && NoSlash(t, p + 1, cur)
    requires Count(t, cur, |t|) < Count(t, f, |t|)
    ensures f <= p
  {
    if f >= cur {
      CountSplit(t, cur, f, |t|);
    } else {
      CountSplit(t, f, cur, |t|);
      CountPositive(t, f, cur);
    }
  }

  lemma {:induction false} NoneLeft(t: string, f: nat, cur: nat)
    requires f <= cur <= |t| && Count(t, cur, |t|) == Count(t, f, |t|)
    ensures Chain(t, cur, |t|) == Chain(t, f, |t|)
  {
    CountSplit(t, f, cur, |t|);
    CountPositive(t, f, cur);
  }

  /** The buffer with the string cut off at `cur`, everything else as in `was`. */
  ghost predicate CutAt(buf: array<char>, was: seq<char>, t: string, cur: nat)
    reads buf
  {
    && cur <= |t| < buf.Length == |was| && was[..|t|] == t && was[|t|] == '\0' && '\0' !in t
    && buf[..] == was[cur := '\0'] && (cur < |t| ==> t[cur] == '/')
  }

  lemma {:induction false} CutString(buf: array<char>, was: seq<char>, t: string, cur: nat)
    requires CutAt(buf, was, t, cur)
    ensures IsStr(buf, t[..cur])
  {
    assert buf[..cur] == buf[..][..cur] == t[..cur];
    assert buf[cur] == buf[..][cur];
  }

  /**
   * `rm_parent_dirs`. The buffer is as before whatever happens; more directories than
   * the path has are refused; and if the `count` innermost are there with nothing else
   * in them, exactly those are removed.
   */
  method RmParentDirs(fs: Fs, buf: array<char>, ghost t: string, count: nat, ghost f: nat) returns (ok: bool)
    requires IsStr(buf, t) && NoDoubleSlash(t) && f <= |t|
    modifies fs, buf
    ensures buf[..] == old(buf[..])
    ensures ok ==> count <= Count(t, 0, |t|)
    ensures ok && count == Count(t, f, |t|) ==> fs.dirs == old(fs.dirs) - Chain(t, f, |t|)
    ensures count == Count(t, f, |t|) && Removable(old(fs.dirs), t, f) && (forall p :: !fs.rmdirFails(p)) ==> ok
  {
    ghost var was := buf[..];
    ghost var cur: nat := |t|;
    var prev: Option<nat> := None;
    var left: nat := count;
    assert was[|t| := '\0'] == was;
    while left > 0
      invariant CutAt(buf, was, t, cur) && prev == (if cur == |t| then None else Some(cur))
      invariant left + Count(t, cur, |t|) == count
      invariant count == Count(t, f, |t|) ==> f <= cur
      invariant fs.dirs == old(fs.dirs) - Chain(t, cur, |t|)
      decreases left
    {
      CutString(buf, was, t, cur);
      var r := StrRChr(buf, t[..cur]);
      if r.None? {
        if prev.Some? {
          buf[prev.value] := '/';
        }
        assert buf[..] == was;
        if count == Count(t, f, |t|) {
          CountSplit(t, f, cur, |t|);
          CountPositive(t, f, cur);
        }
        return false;
      }
      var p := r.value;
      assert prev.Some? ==> prev.value - p != 1;
      buf[p] := '\0';
      if prev.Some? {
        buf[prev.value] := '/';
      }
      prev, left := Some(p), left - 1;
      CountUp(t, p, cur);
      ChainSplit(t, p, cur);
      if count == Count(t, f, |t|) {
        MoreToRemove(t, f, cur, p);
        if Removable(old(fs.dirs), t, f) {
          forall d | d in fs.dirs
            ensures !Below(d, t[..p])
          {
            NextIsEmpty(old(fs.dirs), fs.dirs, t, f, p, cur, d);
          }
        }
      }
      cur := p;
      assert buf[..] == was[cur := '\0'];
      assert buf[..p] == t[..p];
      ok := fs.Rmdir(buf[..p]);
      if !ok {
        buf[p] := '/';
        assert buf[..] == was;
        return;
      }
    }
    if prev.Some? {
      buf[prev.value] := '/';
    }
    assert buf[..] == was;
    CountSplit(t, 0, cur, |t|);
    if count == Count(t, f, |t|) {
      NoneLeft(t, f, cur);
    }
    ok := true;
  }

  // ---- Making ----

  /** The parents from `f` on are new and the ones before were there. */
  ghost predicate NewFrom(had: set<string>, s: string, f: nat, hi: nat) {
    forall k :: f <= k < hi && k < |s| && s[k] == '/' ==> s[..k] !in had
  }

  lemma {:induction false} MadeRemovable(had: set<string>, s: string, f: nat)
    requires Closed(had) && NewFrom(had, s, f, |s|)
    ensures Removable(had + Chain(s, f, |s|), s, f)
    ensures had + Chain(s, f, |s|) - Chain(s, f, |s|) == had
  {
    var dirs := had + Chain(s, f, |s|);
    forall d, k | d in dirs && f <= k < |s| && s[k] == '/' && Below(d, s[..k])
      ensures d in Chain(s, f, |s|)
    {
      assert d[..k] == s[..k] && d[k] == '/';
    }
  }

  lemma {:induction false} PrefixSame(s: string, f: nat, n: nat)
    requires f <= n <= |s|
    ensures Chain(s[..n], f, n) == Chain(s, f, n) && Count(s[..n], f, n) == Count(s, f, n)
  {
    forall k | f <= k < n
      ensures s[..n][..k] == s[..k]
    {
    }
    CountPrefix(s, f, n, n);
  }

  lemma {:induction false} CountPrefix(s: string, f: nat, hi: nat, n: nat)
    requires hi <= n <= |s|
    ensures Count(s[..n], f, hi) == Count(s, f, hi)
  {
    if f < hi {
      CountPrefix(s, f, hi - 1, n);
    }
  }

  /** A parent that was there before anything was made: so nothing had been made. */
  lemma {:induction false} FoundMeansNothingMade(had: set<string>, s: string, f: nat, q: nat)
    requires Closed(had) && NewFrom(had, s, f, q) && f <= q < |s| && s[q] == '/'
    requires s[..q] in had + Chain(s, f, q)
    ensures s[..q] in had && Chain(s, f, q) == {} && Count(s, f, q) == 0
  {
    assert forall d :: d in Chain(s, f, q) ==> |d| < q;
    assert forall k :: 0 <= k < q && s[k] == '/' ==> s[..q][..k] == s[..k];
    CountPositive(s, f, q);
  }

  /** What has been made when the slashes before `p` have been visited. */
  ghost predicate Progress(had: set<string>, dirs: set<string>, s: string, f: nat, p: nat, count: nat) {
    && f <= p <= |s| && NewFrom(had, s, f, p)
    && dirs == had + Chain(s, f, p) && count == Count(s, f, p)
    && (forall k :: 0 < k < p && s[k] == '/' ==> s[..k] in dirs)
  }

  /** One parent made, or found: the visit goes on behind its slash. */
  lemma {:induction false} Visited(had: set<string>, dirs: set<string>, s: string, f: nat, p: nat, q: nat, count: nat,
          made: bool)
    returns (f': nat)
    requires Closed(had) && Progress(had, dirs, s, f, p, count) && p <= q < |s| && s[q] == '/' && NoSlash(s, p, q)
    requires made <==> s[..q] !in dirs
    ensures Progress(had, if made then dirs + {s[..q]} else dirs, s, f', q + 1, if made then count + 1 else count)
  {
    CountGap(s, f, p, q);
    ChainGap(s, f, p, q);
    if made {
      f' := f;
      ChainNext(s, f, q);
    } else {
      FoundMeansNothingMade(had, s, f, q);
      f' := q + 1;
    }
  }

  /** All of the parents are visited: no slash is left. */
  lemma {:induction false} AllVisited(had: set<string>, dirs: set<string>, s: string, f: nat, p: nat, count: nat)
    requires Progress(had, dirs, s, f, p, count) && NoSlash(s, p, |s|)
    ensures Progress(had, dirs, s, f, |s|, count)
  {
    CountGap(s, f, p, |s|);
    ChainGap(s, f, p, |s|);
  }

  /** The innermost parent is there, so that nothing has to be made. */
  ghost predicate ParentThere(had: set<string>, s: string) {
    exists k: nat :: IsLast(s, k) && (k == 0 || s[..k] in had)
  }

  /** The parent that ends at slash `k` has to be there and is not, and cannot be made. */
  ghost predicate Blocked(fs: Fs, had: set<string>, s: string, k: nat) {
    && k < |s| && s[k] == '/' && !ParentThere(had, s)
    && (k == 0 || (s[..k] !in had && fs.mkdirFails(s[..k])))
  }

  ghost predicate NoneBlocked(fs: Fs, had: set<string>, s: string, hi: nat) {
    forall k :: 0 <= k < hi ==> !Blocked(fs, had, s, k)
  }

  /** The outermost such parent: where the making stops. */
  ghost predicate Stops(fs: Fs, had: set<string>, s: string, k: nat) {
    Blocked(fs, had, s, k) && NoneBlocked(fs, had, s, k)
  }

  /** The last slash of a path, the only one that is put back in any case. */
  ghost predicate IsLast(s: string, k: nat) {
    k < |s| && s[k] == '/' && NoSlash(s, k + 1, |s|)
  }

  /** The one lookup that comes before the making goes through. */
  ghost predicate StatOk(fs: Fs, s: string) {
    forall k: nat :: IsLast(s, k) ==> !fs.statFails(s[..k])
  }

  /** What is made so far taken back after a failure. */
  method TakeBack(fs: Fs, buf: array<char>, ghost s: string, ghost n: nat, made: nat, ghost f: nat, ghost p: nat,
          ghost had: set<string>)
    requires n <= |s| && IsStr(buf, s[..n]) && NoDoubleSlash(s) && Closed(had)
    requires Progress(had, fs.dirs, s, f, p, made) && p <= n && NoSlash(s, p, n)
    modifies fs, buf
    ensures buf[..] == old(buf[..]) && ((forall p :: !fs.rmdirFails(p)) ==> fs.dirs == had)
  {
    CountGap(s, f, p, n);
    ChainGap(s, f, p, n);
    PrefixSame(s, f, n);
    assert forall k :: 0 <= k < n ==> s[..n][..k] == s[..k];
    MadeRemovable(had, s[..n], f);
    var _ := RmParentDirs(fs, buf, s[..n], made, f);
  }

  lemma {:induction false} ParentsThere(had: set<string>, dirs: set<string>, s: string, f: nat, p: nat, n: nat,
          made: nat)
    requires Progress(had, dirs, s, f, p, made) && p <= n < |s| && s[n] == '/' && NoSlash(s, p, n)
    ensures forall k :: 0 < k < n && s[..n][k] == '/' ==> s[..n][..k] in dirs
    ensures s[..n] in dirs <==> s[..n] in had
  {
    assert forall k :: 0 <= k < n ==> s[..n][..k] == s[..k];
    assert forall d :: d in Chain(s, f, p) ==> |d| < p;
  }

  /** Cut the path behind the next component, or at the last slash, and make that directory. */
  method MakeNext(fs: Fs, buf: array<char>, ghost s: string, last: nat, ghost was: seq<char>, p: nat,
          ghost had: set<string>, ghost f: nat, ghost made: nat)
    returns (r: Outcome, n: nat)
    requires CutAt(buf, was, s, last) && IsLast(s, last) && p <= last && Progress(had, fs.dirs, s, f, p, made)
    requires !ParentThere(had, s) && (p > 0 ==> s[0] != '/')
    modifies fs, buf
    ensures p <= n <= last && s[n] == '/' && NoSlash(s, p, n)
    ensures buf[..] == was[last := '\0'][n := '\0'] && IsStr(buf, s[..n])
    ensures r == Exists <==> n > 0 && s[..n] in old(fs.dirs)
    ensures fs.dirs == if r == Done then old(fs.dirs) + {s[..n]} else old(fs.dirs)
    ensures if r == Failed then Blocked(fs, had, s, n) else !Blocked(fs, had, s, n)
  {
    CutString(buf, was, s, last);
    var q := StrChr(buf, s[..last], p);
    n := if q.Some? then q.value else last;
    buf[n] := '\0';
    assert buf[..] == was[last := '\0'][n := '\0'];
    assert buf[..n] == was[..|s|][..n] == s[..n];
    ParentsThere(had, fs.dirs, s, f, p, n, made);
    r := fs.Mkdir(buf[..n]);
  }

  /** The slash at `n` put back, unless it is the last one. */
  method Mend(buf: array<char>, ghost s: string, last: nat, ghost was: seq<char>, n: nat)
    requires n <= last < |s| < buf.Length == |was| && was[..|s|] == s && was[|s|] == '\0' && '\0' !in s
    requires s[n] == s[last] == '/' && buf[..] == was[last := '\0'][n := '\0']
    modifies buf
    ensures CutAt(buf, was, s, last)
  {
    if n != last {
      buf[n] := '/';
      assert was[n] == was[..|s|][n];
      assert buf[..] == was[last := '\0'];
    }
  }

  lemma {:induction false} NoneBlockedNext(fs: Fs, had: set<string>, s: string, p: nat, n: nat)
    requires NoneBlocked(fs, had, s, p) && p <= n < |s| && s[n] == '/' && NoSlash(s, p, n)
    ensures Blocked(fs, had, s, n) ==> Stops(fs, had, s, n)
    ensures !Blocked(fs, had, s, n) ==> NoneBlocked(fs, had, s, n + 1)
    ensures !ParentThere(had, s) && !Blocked(fs, had, s, n) ==> n > 0
  {
  }

  /** The loop over the parents, outermost first. */
  method MakeEach(fs: Fs, buf: array<char>, ghost s: string, last: nat, ghost was: seq<char>)
    returns (count: int, ghost f: nat, ghost stop: nat)
    requires Closed(fs.dirs) && NoDoubleSlash(s) && CutAt(buf, was, s, last) && IsLast(s, last)
    requires !ParentThere(fs.dirs, s)
    modifies fs, buf
    ensures count >= 0 ==> Progress(old(fs.dirs), fs.dirs, s, f, |s|, count) && CutAt(buf, was, s, last)
    ensures count >= 0 ==> NoneBlocked(fs, old(fs.dirs), s, |s|)
    ensures count < 0 ==> Stops(fs, old(fs.dirs), s, stop) && buf[..] == was[last := '\0'][stop := '\0']
    ensures count < 0 && (forall p :: !fs.rmdirFails(p)) ==> fs.dirs == old(fs.dirs)
  {
    ghost var had := fs.dirs;
    var p: nat, made: nat := 0, 0;
    f, stop := 0, 0;
    while p <= last
      invariant CutAt(buf, was, s, last) && p <= last + 1 && Progress(had, fs.dirs, s, f, p, made)
      invariant NoneBlocked(fs, had, s, p) && (p > 0 ==> s[0] != '/')
      decreases last + 1 - p
    {
      ghost var dirs := fs.dirs;
      var r, n := MakeNext(fs, buf, s, last, was, p, had, f, made);
      NoneBlockedNext(fs, had, s, p, n);
      if r == Failed {
        TakeBack(fs, buf, s, n, made, f, p, had);
        return -1, f, n;
      }
      f := Visited(had, dirs, s, f, p, n, made, r == Done);
      made := if r == Done then made + 1 else made;
      Mend(buf, s, last, was, n);
      p := n + 1;
    }
    AllVisited(had, fs.dirs, s, f, p, made);
    count := made;
  }

  /** The last slash put back into a buffer that was cut at `stop` too. */
  lemma {:induction false} PutBack(was: seq<char>, s: string, last: nat, stop: nat)
    requires |s| < |was| && was[..|s|] == s && last < |s| && s[last] == '/' && stop < |s| && s[stop] == '/'
    ensures was[last := '\0'][stop := '\0'][last := '/'] == if stop == last then was else was[stop := '\0']
    ensures was[stop := '\0'] != was
  {
    assert was[stop] == was[..|s|][stop] && was[last] == was[..|s|][last];
    assert was[stop := '\0'][stop] != was[stop];
  }

  /**
   * `make_parent_dirs_if_need`. It succeeds exactly when the lookup goes through and
   * every parent is there or can be made. Then all parents exist and the new ones are
   * the `count` innermost. After a failure what was made is removed again. The buffer
   * comes back changed exactly when the outermost parent that can be neither found nor
   * made is not the last one: then it is cut at that slash.
   */
  method MakeParentDirs(fs: Fs, buf: array<char>, ghost s: string) returns (count: int, ghost f: nat)
    requires IsStr(buf, s) && NoDoubleSlash(s) && Closed(fs.dirs)
    modifies fs, buf
    ensures count >= 0 <==> StatOk(fs, s) && NoneBlocked(fs, old(fs.dirs), s, |s|)
    ensures count >= 0 ==> Progress(old(fs.dirs), fs.dirs, s, f, |s|, count)
    ensures count < 0 && (forall p :: !fs.rmdirFails(p)) ==> fs.dirs == old(fs.dirs)
    ensures buf[..] != old(buf[..]) <==>
            StatOk(fs, s) && exists k: nat :: Stops(fs, old(fs.dirs), s, k) && !IsLast(s, k)
    ensures forall k: nat :: buf[..] != old(buf[..]) && Stops(fs, old(fs.dirs), s, k) ==>
              buf[..] == old(buf[..])[k := '\0']
  {
    ghost var was, had := buf[..], fs.dirs;
    f := |s|;
    var delim := StrRChr(buf, s);
    if delim.None? {
      return 0, f;
    }
    var last := delim.value;
    assert IsLast(s, last);
    buf[last] := '\0';
    assert CutAt(buf, was, s, last);
    CutString(buf, was, s, last);
    var st := fs.Stat(buf[..last]);
    if st == Exists {
      assert forall k :: 0 <= k < last && s[k] == '/' ==> s[..last][..k] == s[..k];
      count := 0;
    } else if st == Failed {
      count := -1;
    } else {
      ghost var stop;
      count, f, stop := MakeEach(fs, buf, s, last, was);
      if count < 0 {
        PutBack(was, s, last, stop);
      }
    }
    buf[last] := '/';
  }

  /** A successful creation is undone by removing the number of directories it returned. */
  method MakeAndUndo(fs: Fs, buf: array<char>, ghost s: string) returns (count: int, ok: bool)
    requires IsStr(buf, s) && NoDoubleSlash(s) && Closed(fs.dirs) && (forall p :: !fs.rmdirFails(p))
    modifies fs, buf
    ensures fs.dirs == old(fs.dirs) && (ok <==> count >= 0) && (ok ==> buf[..] == old(buf[..]))
  {
    ghost var had := fs.dirs;
    ghost var f;
    count, f := MakeParentDirs(fs, buf, s);
    ok := false;
    if count >= 0 {
      MadeRemovable(had, s, f);
      assert buf[..|s|] == buf[..][..|s|];
      ok := RmParentDirs(fs, buf, s, count, f);
    }
  }

  /** Three components of which the first cannot be made: the path comes back cut short. */
  method FailureCutsPath(fs: Fs, buf: array<char>) returns (count: int)
    requires fs.dirs == {} && (forall p :: !fs.statFails(p) && fs.mkdirFails(p)) && IsStr(buf, "a/b/c")
    modifies fs, buf
    ensures count < 0 && buf[1] == '\0'
  {
    ghost var was, f := buf[..], 0;
    assert was[1] == was[..5][1];
    count, f := MakeParentDirs(fs, buf, "a/b/c");
    assert Stops(fs, {}, "a/b/c", 1) && "a/b/c"[3] == '/';
    assert buf[1] == buf[..][1];
  }

  /** Only the second cannot be made: that is the last one and the path comes back whole. */
  method FailureAtLastKeepsPath(fs: Fs, buf: array<char>) returns (count: int)
    requires fs.dirs == {} && IsStr(buf, "a/b/c")
    requires forall p :: !fs.statFails(p) && (fs.mkdirFails(p) <==> p == "a/b")
    modifies fs, buf
    ensures count < 0 && buf[..] == old(buf[..])
  {
    ghost var f;
    assert "a/b/c"[..1] == "a" && "a/b/c"[..3] == "a/b";
    assert "a/b/c"[1] == '/' && "a/b/c"[3] == '/';
    assert Blocked(fs, {}, "a/b/c", 3);
    count, f := MakeParentDirs(fs, buf, "a/b/c");
  }
}
