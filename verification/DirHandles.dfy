/** The scan's bounded cache of open directories, which answers as resolving from the mount root would. */
module DirHandleCache {
  import opened Paths
  import opened PlainFs
  import opened HostWalk

  const CAPACITY: nat := 32

  /** An open directory: the mount and path it is kept under, and the directory its handle leads to. */
  datatype OpenDir = OpenDir(mount: nat, path: Path, handle: Path)

  // ---- least recently used order -------------------------------------------

  function Without<T(==)>(s: seq<T>, x: T): seq<T>
  {
    if s == [] then []
    else if s[|s| - 1] == x then Without(s[..|s| - 1], x)
    else Without(s[..|s| - 1], x) + [s[|s| - 1]]
  }

  /** Using one entry: it becomes the newest, and a new one pushes the oldest out of a full cache. */
  function Touch<T(==)>(s: seq<T>, x: T): seq<T>
  {
    if x in s then Without(s, x) + [x]
    else if |s| >= CAPACITY then s[1..] + [x]
    else s + [x]
  }

  function TouchAll<T(==)>(s: seq<T>, xs: seq<T>): seq<T>
  {
    if xs == [] then s else Touch(TouchAll(s, xs[..|xs| - 1]), xs[|xs| - 1])
  }

  /** All entries in order of last use: `s` counts as used before `xs`. */
  function LastUse<T(==)>(s: seq<T>, xs: seq<T>): seq<T>
  {
    if xs == [] then s else var n := |xs| - 1; Without(LastUse(s, xs[..n]), xs[n]) + [xs[n]]
  }

  /** The newest entries, as many as the cache holds. */
  function Newest<T>(s: seq<T>): seq<T>
  {
    if |s| > CAPACITY then s[|s| - CAPACITY..] else s
  }

  ghost predicate Distinct<T>(s: seq<T>)
  {
    forall i, j :: 0 <= i < j < |s| ==> s[i] != s[j]
  }

  lemma {:induction false} WithoutAbsent<T>(s: seq<T>, x: T)
    requires x !in s
    ensures Without(s, x) == s
  {
    if s != [] {
      var n := |s| - 1;
      assert s[n] in s;
      assert forall y :: y in s[..n] ==> y in s;
      WithoutAbsent(s[..n], x);
      assert s == s[..n] + [s[n]];
    }
  }

  lemma {:induction false} WithoutConcat<T>(a: seq<T>, b: seq<T>, x: T)
    ensures Without(a + b, x) == Without(a, x) + Without(b, x)
  {
    if b == [] {
      assert a + b == a;
    } else {
      var n := |b| - 1;
      assert (a + b)[..|a + b| - 1] == a + b[..n];
      WithoutConcat(a, b[..n], x);
    }
  }

  lemma AppendDistinct<T>(a: seq<T>, x: T)
    requires Distinct(a) && x !in a
    ensures Distinct(a + [x])
  {
    var b := a + [x];
    forall i, j | 0 <= i < j < |b| ensures b[i] != b[j] {
      assert b[i] == a[i] && b[i] in a;
    }
  }

  lemma {:induction false} WithoutMembers<T>(s: seq<T>, x: T)
    ensures forall y :: y in Without(s, x) <==> y in s && y != x
    ensures Distinct(s) ==> Distinct(Without(s, x))
  {
    if s != [] {
      var n := |s| - 1;
      WithoutMembers(s[..n], x);
      assert s == s[..n] + [s[n]];
      if Distinct(s) {
        assert s[n] !in s[..n];
        if s[n] != x { AppendDistinct(Without(s[..n], x), s[n]); }
      }
    }
  }

  lemma WithoutMember<T>(s: seq<T>, x: T, i: nat)
    requires i < |Without(s, x)|
    ensures Without(s, x)[i] in s
  {
    WithoutMembers(s, x);
    var y := Without(s, x)[i];
    assert y in Without(s, x);
  }

  /** A listed entry's place splits the rest. */
  lemma WithoutAt<T>(s: seq<T>, i: nat)
    requires i < |s| && Distinct(s)
    ensures Without(s, s[i]) == s[..i] + s[i + 1..]
  {
    var a, b, x := s[..i], s[i + 1..], s[i];
    assert s == a + [x] + b;
    WithoutOnly(x);
    forall j | 0 <= j < |a| ensures a[j] != x { assert s[j] != s[i]; }
    forall j | 0 <= j < |b| ensures b[j] != x { assert b[j] == s[i + 1 + j] && s[i] != s[i + 1 + j]; }
    hide Without, Distinct;
    WithoutConcat(a + [x], b, x);
    WithoutConcat(a, [x], x);
    WithoutAbsent(a, x);
    WithoutAbsent(b, x);
  }

  lemma WithoutOnly<T>(x: T)
    ensures Without([x], x) == []
  {
    assert [x][..0] == [];
  }

  /** Using an entry after others: the cache is the newest of everything in order of last use. */
  lemma TouchNewest<T>(l: seq<T>, x: T)
    requires Distinct(l)
    ensures Touch(Newest(l), x) == Newest(Without(l, x) + [x])
  {
    hide Without, Touch, Newest, Distinct;
    if x in l {
      var i :| 0 <= i < |l| && l[i] == x;
      TouchHeld(l, i);
    } else {
      TouchNew(l, x);
    }
  }

  lemma TouchNew<T>(l: seq<T>, x: T)
    requires x !in l
    ensures Touch(Newest(l), x) == Newest(Without(l, x) + [x])
  {
    hide Without;
    WithoutAbsent(l, x);
    var f := Newest(l);
    assert x !in f by { assert forall i :: 0 <= i < |f| ==> f[i] in l; }
    if |l| >= CAPACITY {
      assert f == l[|l| - CAPACITY..];
      var n := |l| + 1 - CAPACITY;
      assert f[1..] == l[n..] && (l + [x])[n..] == l[n..] + [x];
    } else {
      assert f == l && Newest(l + [x]) == l + [x];
    }
  }

  lemma TouchHeld<T>(l: seq<T>, i: nat)
    requires Distinct(l) && i < |l|
    ensures Touch(Newest(l), l[i]) == Newest(Without(l, l[i]) + [l[i]])
  {
    hide Without, Distinct;
    var x, k := l[i], if |l| > CAPACITY then |l| - CAPACITY else 0;
    WithoutAt(l, i);
    NewestAt(l, k, i);
    var f := l[k..];
    if k <= i {
      WithoutAt(f, i - k);
      assert f[..i - k] == l[k..i] && f[i - k + 1..] == l[i + 1..];
      SliceSplit(l, k, i);
    } else {
      SliceTail(l, k, i);
    }
  }

  lemma NewestAt<T>(l: seq<T>, k: nat, i: nat)
    requires Distinct(l) && i < |l| && k == if |l| > CAPACITY then |l| - CAPACITY else 0
    ensures Newest(l) == l[k..] && Distinct(l[k..])
    ensures l[i] in l[k..] <==> k <= i
    ensures k <= i ==> l[k..][i - k] == l[i]
  {
  }

  lemma SliceSplit<T>(l: seq<T>, k: nat, i: nat)
    requires k <= i < |l| && k == if |l| > CAPACITY then |l| - CAPACITY else 0
    ensures Newest(l[..i] + l[i + 1..] + [l[i]]) == l[k..i] + l[i + 1..] + [l[i]]
  {
  }

  lemma SliceTail<T>(l: seq<T>, k: nat, i: nat)
    requires i < k && k == if |l| > CAPACITY then |l| - CAPACITY else 0
    ensures Newest(l[..i] + l[i + 1..] + [l[i]]) == l[k..][1..] + [l[i]]
  {
  }

  /** After any uses, repeated ones included, the cache holds the most recently used entries, oldest first. */
  lemma {:induction false} RecencyOrder<T>(s: seq<T>, xs: seq<T>)
    requires Distinct(s) && |s| <= CAPACITY
    ensures TouchAll(s, xs) == Newest(LastUse(s, xs)) && Distinct(LastUse(s, xs))
  {
    hide Without, Touch, Distinct;
    if xs != [] {
      var n := |xs| - 1;
      RecencyOrder(s, xs[..n]);
      var l := LastUse(s, xs[..n]);
      TouchNewest(l, xs[n]);
      WithoutMembers(l, xs[n]);
      AppendDistinct(Without(l, xs[n]), xs[n]);
    }
  }

  /** The last place an entry was used at, -1 where it never was. */
  ghost function LastIndex<T>(xs: seq<T>, x: T): int
  {
    if xs == [] then -1
    else var n := |xs| - 1; if xs[n] == x then n else LastIndex(xs[..n], x)
  }

  lemma {:induction false} LastIndexBound<T>(xs: seq<T>, x: T)
    ensures LastIndex(xs, x) < |xs|
  {
    if xs != [] { LastIndexBound(xs[..|xs| - 1], x); }
  }

  ghost predicate Ordered<T>(xs: seq<T>, l: seq<T>)
  {
    forall i, j :: 0 <= i < j < |l| ==> LastIndex(xs, l[i]) < LastIndex(xs, l[j])
  }

  lemma {:induction false} WithoutOrdered<T>(xs: seq<T>, l: seq<T>, x: T)
    requires Ordered(xs, l)
    ensures Ordered(xs, Without(l, x))
  {
    hide LastIndex;
    if l != [] {
      var n := |l| - 1;
      var k := l[..n];
      WithoutOrdered(xs, k, x);
      var m := Without(k, x);
      forall i | 0 <= i < |m| ensures LastIndex(xs, m[i]) < LastIndex(xs, l[n]) {
        WithoutMember(k, x, i);
        var j :| 0 <= j < |k| && k[j] == m[i];
        assert l[j] == k[j];
      }
    }
  }

  /** The order of last use holds each entry used, once, by the place of its last use. */
  lemma {:induction false} LastUseOrder<T>(xs: seq<T>)
    ensures forall x :: x in LastUse([], xs) <==> x in xs
    ensures Ordered(xs, LastUse([], xs))
  {
    hide Without;
    if xs != [] {
      var n := |xs| - 1;
      var l, x := LastUse([], xs[..n]), xs[n];
      LastUseOrder(xs[..n]);
      assert xs == xs[..n] + [x];
      WithoutMembers(l, x);
      WithoutOrdered(xs[..n], l, x);
      var m := Without(l, x);
      forall i | 0 <= i < |m| ensures m[i] != x && LastIndex(xs, m[i]) == LastIndex(xs[..n], m[i]) < n {
        assert m[i] in m;
        LastIndexBound(xs[..n], m[i]);
      }
    }
  }

  // ---- the cache ------------------------------------------------------------

  /**
   * A mount as its handles see it.  `refuseLinks` is the mount's rule for every
   * handle; `follow` says which links, opened through the directory that holds
   * them, lead to a directory inside it.
   */
  datatype MountDir = MountDir(tree: Tree, refuseLinks: bool, follow: map<Path, Path>)

  ghost predicate MountValid(m: MountDir)
  {
    WellFormed(m.tree) && forall p :: p in m.follow ==> IsDir(m.tree, m.follow[p])
  }

  predicate IsDir(t: Tree, p: Path)
  {
    p in t && t[p].Dir?
  }

  /** Opening a name through the handle of a real directory. */
  function OpenBelow(m: MountDir, dir: Path, name: Name, refuseLinks: bool): Option<Path>
  {
    var p := dir + [name];
    if IsDir(m.tree, p) then Some(p)
    else if !refuseLinks && KindAt(m.tree, p) == RealSymlink && p in m.follow then Some(m.follow[p])
    else None
  }

  /** The real directory reached by opening each component of a path in turn from the mount root. */
  ghost function Reached(m: MountDir, rel: Path): Option<Path>
  {
    if rel == [] then Some([])
    else match Reached(m, Parent(rel))
      case None => None
      case Some(dir) => OpenBelow(m, dir, Last(rel), m.refuseLinks)
  }

  lemma ReachedBelow(m: MountDir, rel: Path)
    requires rel != []
    ensures Reached(m, []) == Some([])
    ensures
      var above := Reached(m, Parent(rel));
      Reached(m, rel) == if above == None then None else OpenBelow(m, above.value, Last(rel), m.refuseLinks)
    ensures
      var above := Reached(m, Parent(rel));
      above.Some? && m.refuseLinks && KindAt(m.tree, above.value + [Last(rel)]) != RealDir ==> Reached(m, rel) == None
  {
  }

  /** Where links are refused, or there are none, that is the path itself where it is a directory. */
  lemma {:induction false} ReachedPlainly(m: MountDir, rel: Path)
    requires WellFormed(m.tree)
    requires m.refuseLinks || forall p :: p in m.tree ==> !m.tree[p].Link?
    ensures Reached(m, rel) == if IsDir(m.tree, rel) then Some(rel) else None
  {
    if rel != [] {
      ReachedPlainly(m, Parent(rel));
      assert Parent(rel) + [Last(rel)] == rel && Parent(rel) < rel;
    }
  }

  lemma {:induction false} ReachedItself(m: MountDir, d: Path)
    requires WellFormed(m.tree) && IsDir(m.tree, d)
    ensures Reached(m, d) == Some(d)
  {
    if d != [] {
      assert Parent(d) < d;
      ReachedItself(m, Parent(d));
      assert Parent(d) + [Last(d)] == d;
    }
  }

  /** On a mount that follows links, a link leads where opening it leads, and what follows is opened there. */
  lemma LinkFollowed(m: MountDir, q: Path)
    requires MountValid(m) && q in m.tree && m.tree[q].Link?
    ensures Reached(m, q) == if !m.refuseLinks && q in m.follow then Some(m.follow[q]) else None
  {
    assert q != [] && Parent(q) < q;
    ReachedItself(m, Parent(q));
    assert Parent(q) + [Last(q)] == q;
  }

  lemma {:induction false} ReachedThrough(m: MountDir, p: Path, rest: Path)
    requires MountValid(m) && Reached(m, p).Some?
    ensures Reached(m, p + rest) == Reached(m, Reached(m, p).value + rest)
  {
    hide OpenBelow;
    var d := Reached(m, p).value;
    if rest == [] {
      assert p + rest == p && d + rest == d;
      ReachedIsDir(m, p);
      ReachedItself(m, d);
    } else {
      ReachedThrough(m, p, Parent(rest));
      assert Parent(p + rest) == p + Parent(rest) && Parent(d + rest) == d + Parent(rest);
      assert Last(p + rest) == Last(rest) && Last(d + rest) == Last(rest);
    }
  }

  lemma {:induction false} ReachedIsDir(m: MountDir, rel: Path)
    requires MountValid(m)
    ensures Reached(m, rel).Some? ==> IsDir(m.tree, Reached(m, rel).value)
  {
    if rel != [] { ReachedIsDir(m, Parent(rel)); }
  }

  /** The cache's entry for a directory. */
  ghost function Opened(mounts: seq<MountDir>, mount: nat, rel: Path): OpenDir
    requires mount < |mounts|
  {
    OpenDir(mount, rel, match Reached(mounts[mount], rel) case Some(dir) => dir case None => [])
  }

  /** The open directories a lookup of `rel` uses: from the deepest one open to the deepest there is. */
  ghost function Used(mounts: seq<MountDir>, open: seq<OpenDir>, mount: nat, rel: Path): seq<OpenDir>
    requires mount < |mounts|
    decreases |rel|
  {
    if rel == [] then []
    else if Opened(mounts, mount, rel) in open then [Opened(mounts, mount, rel)]
    else
      Used(mounts, open, mount, Parent(rel)) +
      if Reached(mounts[mount], rel).Some? then [Opened(mounts, mount, rel)] else []
  }

  lemma {:induction false} UsedPrefixes(mounts: seq<MountDir>, open: seq<OpenDir>, mount: nat, rel: Path)
    requires mount < |mounts|
    ensures forall x :: x in Used(mounts, open, mount, rel) ==> x.mount == mount && x.path <= rel
  {
    hide Reached;
    if rel != [] && Opened(mounts, mount, rel) !in open {
      UsedPrefixes(mounts, open, mount, Parent(rel));
    }
  }

  /** A directory's entries and their kinds, as reading it through its handle gives them. */
  function Listing(t: Tree, dir: Path): (r: map<Name, RealTarget>)
    ensures forall n :: n in r <==> dir + [n] in t
    ensures forall n :: n in r ==> r[n] == KindAt(t, dir + [n])
  {
    map n | n in ChildNames(t, dir) :: KindAt(t, dir + [n])
  }

  class DirHandles {
    const mounts: seq<MountDir>
    /** Most recently used last. */
    var open: seq<OpenDir>
    /** Every directory used so far, in order. */
    ghost var uses: seq<OpenDir>

    /** Whatever was asked so far, the cache holds the most recently used directories, oldest first. */
    ghost predicate Valid()
      reads this
    {
      && open == Newest(LastUse([], uses))
      && |open| <= CAPACITY && Distinct(open)
      && (forall i :: 0 <= i < |mounts| ==> MountValid(mounts[i]))
      && (forall i :: 0 <= i < |open| ==> GoodHandle(mounts, open[i]))
    }

    constructor (mounts: seq<MountDir>)
      requires forall i :: 0 <= i < |mounts| ==> MountValid(mounts[i])
      ensures Valid() && uses == [] && this.mounts == mounts
    {
      this.mounts := mounts;
      open, uses := [], [];
    }

    /** Where a directory is kept, if it is open. */
    method Position(mount: nat, rel: Path) returns (at: Option<nat>)
      ensures at.Some? ==> at.value < |open| && open[at.value].mount == mount && open[at.value].path == rel
      ensures at == None ==> forall i :: 0 <= i < |open| ==> !(open[i].mount == mount && open[i].path == rel)
    {
      for i := 0 to |open|
        invariant forall j :: 0 <= j < i ==> !(open[j].mount == mount && open[j].path == rel)
      {
        if open[i].mount == mount && open[i].path == rel {
          return Some(i);
        }
      }
      return None;
    }

    /**
     * The place of a directory's handle, opening it below its parent's,
     * recursively, if it is not open.  It is found exactly when opening every
     * component in turn from the mount root would succeed, and leads where that would.
     */
    method Handle(mount: nat, rel: Path) returns (at: Option<nat>)
      requires Valid() && mount < |mounts| && rel != []
      modifies this
      ensures Valid()
      ensures at.Some? <==> Reached(mounts[mount], rel).Some?
      ensures at.Some? ==> at.value + 1 == |open| && open[at.value] == Opened(mounts, mount, rel)
      ensures uses == old(uses) + Used(mounts, old(open), mount, rel)
      ensures open == TouchAll(old(open), Used(mounts, old(open), mount, rel))
      decreases |rel|
    {
      hide Used, TouchAll, Touch, Distinct, MountValid, LastUse, Newest, Reached, OpenBelow, KindAt;
      var position := Position(mount, rel);
      if position.Some? {
        assert GoodHandle(mounts, open[position.value]);
        UsedHit(mounts, open, mount, rel);
        MakeNewest(position.value);
        return Some(|open| - 1);
      }
      assert Opened(mounts, mount, rel) !in open;
      UsedMiss(mounts, open, mount, rel);
      StillAbsent(mounts, open, mount, rel);
      ReachedBelow(mounts[mount], rel);
      var parent: Path := [];
      if |rel| > 1 {
        var above := Handle(mount, Parent(rel));
        if above == None { return None; }
        parent := open[above.value].handle;
      } else {
        assert Parent(rel) == [];
      }
      var m := mounts[mount];
      if m.refuseLinks && KindAt(m.tree, parent + [Last(rel)]) != RealDir { return None; }
      var dir := OpenBelow(m, parent, Last(rel), m.refuseLinks);
      if dir == None { return None; }
      Push(OpenDir(mount, rel, dir.value));
      return Some(|open| - 1);
    }

    /** Moves an open directory to the newest end. */
    method MakeNewest(i: nat)
      requires Valid() && i < |open|
      modifies this
      ensures Valid() && open == Touch(old(open), old(open)[i]) && uses == old(uses) + [old(open)[i]]
      ensures open != [] && open[|open| - 1] == old(open)[i]
    {
      hide LastUse, Newest, MountValid;
      HitTouches(open, i);
      TouchKeeps(mounts, open, open[i]);
      UseNewest(uses, open[i]);
      uses := uses + [open[i]];
      open := open[..i] + open[i + 1..] + [open[i]];
    }

    /** Keeps a newly opened directory, letting the oldest of a full cache go. */
    method Push(x: OpenDir)
      requires Valid() && x !in open && GoodHandle(mounts, x)
      modifies this
      ensures Valid() && open == Touch(old(open), x) && uses == old(uses) + [x]
      ensures open != [] && open[|open| - 1] == x
    {
      hide LastUse, Newest, MountValid;
      TouchKeeps(mounts, open, x);
      UseNewest(uses, x);
      uses := uses + [x];
      if |open| == CAPACITY {
        open := open[1..];
      }
      open := open + [x];
    }

    /** Lists a directory through its parent's handle, following a link in its name that stays inside the parent. */
    method ReadDir(mount: nat, rel: Path) returns (entries: Option<map<Name, RealTarget>>)
      requires Valid() && mount < |mounts| && !mounts[mount].refuseLinks
      modifies this
      ensures Valid() && uses == old(uses) + if |rel| > 1 then Used(mounts, old(open), mount, Parent(rel)) else []
      ensures entries == match Reached(mounts[mount], rel)
              case None => None
              case Some(dir) => Some(Listing(mounts[mount].tree, dir))
    {
      hide Used, TouchAll, LastUse, Newest, MountValid, Distinct;
      var m := mounts[mount];
      if rel == [] { return Some(Listing(m.tree, [])); }
      var parent: Path := [];
      if |rel| > 1 {
        var above := Handle(mount, Parent(rel));
        if above == None { return None; }
        parent := open[above.value].handle;
      } else {
        assert Parent(rel) == [];
      }
      var dir := OpenBelow(m, parent, Last(rel), false);
      entries := if dir.Some? then Some(Listing(m.tree, dir.value)) else None;
    }

    /** Lists a directory through its own handle, on a mount whose handles never follow a link. */
    method ReadDirLinkFree(mount: nat, rel: Path) returns (entries: Option<map<Name, RealTarget>>)
      requires Valid() && mount < |mounts| && mounts[mount].refuseLinks
      modifies this
      ensures Valid() && uses == old(uses) + Used(mounts, old(open), mount, rel)
      ensures entries == if IsDir(mounts[mount].tree, rel) then Some(Listing(mounts[mount].tree, rel)) else None
    {
      hide TouchAll, LastUse, Newest, MountValid, Distinct, Reached;
      ReachedTree(mounts, mount, rel);
      if rel == [] { return Some(Listing(mounts[mount].tree, [])); }
      var at := Handle(mount, rel);
      entries := if at.Some? then Some(Listing(mounts[mount].tree, open[at.value].handle)) else None;
    }

    /** Looks a name up through its parent's handle: `None` for the root or a parent that cannot be opened. */
    method SymlinkMetadata(mount: nat, rel: Path) returns (found: Option<RealTarget>)
      requires Valid() && mount < |mounts|
      modifies this
      ensures Valid() && uses == old(uses) + if |rel| > 1 then Used(mounts, old(open), mount, Parent(rel)) else []
      ensures found == if rel == [] then None else match Reached(mounts[mount], Parent(rel))
              case None => None
              case Some(dir) => Some(KindAt(mounts[mount].tree, dir + [Last(rel)]))
    {
      hide Used, TouchAll, LastUse, Newest, MountValid, Distinct;
      if rel == [] { return None; }
      var parent: Path := [];
      if |rel| > 1 {
        var above := Handle(mount, Parent(rel));
        if above == None { return None; }
        parent := open[above.value].handle;
      } else {
        assert Parent(rel) == [];
      }
      found := Some(KindAt(mounts[mount].tree, parent + [Last(rel)]));
    }
  }

  lemma ReachedTree(mounts: seq<MountDir>, mount: nat, rel: Path)
    requires mount < |mounts| && mounts[mount].refuseLinks && MountValid(mounts[mount])
    ensures Reached(mounts[mount], rel) == if IsDir(mounts[mount].tree, rel) then Some(rel) else None
    ensures [] in mounts[mount].tree && mounts[mount].tree[[]].Dir?
  {
    ReachedPlainly(mounts[mount], rel);
  }

  /** One more use of the newest entries is one more use of all. */
  lemma UseNewest<T>(uses: seq<T>, x: T)
    ensures Touch(Newest(LastUse([], uses)), x) == Newest(LastUse([], uses + [x]))
  {
    hide Without, Touch, Newest;
    RecencyOrder([], uses);
    TouchNewest(LastUse([], uses), x);
    assert (uses + [x])[..|uses|] == uses;
  }

  /** A handle leads where opening its path from the mount root would. */
  ghost predicate GoodHandle(mounts: seq<MountDir>, x: OpenDir)
  {
    && x.mount < |mounts| && x.path != []
    && Reached(mounts[x.mount], x.path).Some? && x == Opened(mounts, x.mount, x.path)
  }

  lemma HitTouches(open: seq<OpenDir>, i: nat)
    requires Distinct(open) && i < |open|
    ensures Touch(open, open[i]) == open[..i] + open[i + 1..] + [open[i]]
  {
    WithoutAt(open, i);
  }

  lemma TouchKeeps(mounts: seq<MountDir>, open: seq<OpenDir>, x: OpenDir)
    requires |open| <= CAPACITY && Distinct(open) && GoodHandle(mounts, x)
    requires forall i :: 0 <= i < |open| ==> GoodHandle(mounts, open[i])
    ensures |Touch(open, x)| <= CAPACITY && Distinct(Touch(open, x))
    ensures forall i :: 0 <= i < |Touch(open, x)| ==> GoodHandle(mounts, Touch(open, x)[i])
  {
    hide GoodHandle;
    if x in open {
      var i :| 0 <= i < |open| && open[i] == x;
      WithoutAt(open, i);
      WithoutMembers(open, x);
      AppendDistinct(Without(open, x), x);
    } else {
      var kept := if |open| >= CAPACITY then open[1..] else open;
      assert forall i :: 0 <= i < |kept| ==> kept[i] in open;
      AppendDistinct(kept, x);
    }
  }

  lemma UsedHit(mounts: seq<MountDir>, open: seq<OpenDir>, mount: nat, rel: Path)
    requires mount < |mounts| && rel != [] && Opened(mounts, mount, rel) in open
    ensures Used(mounts, open, mount, rel) == [Opened(mounts, mount, rel)]
    ensures TouchAll(open, Used(mounts, open, mount, rel)) == Touch(open, Opened(mounts, mount, rel))
  {
    hide Reached, Touch;
    assert [Opened(mounts, mount, rel)][..0] == [];
  }

  lemma UsedMiss(mounts: seq<MountDir>, open: seq<OpenDir>, mount: nat, rel: Path)
    requires mount < |mounts| && rel != [] && Opened(mounts, mount, rel) !in open
    ensures
      var before := Used(mounts, open, mount, Parent(rel));
      var above, found := TouchAll(open, before), Reached(mounts[mount], rel).Some?;
      && Used(mounts, open, mount, rel) == before + (if found then [Opened(mounts, mount, rel)] else [])
      && TouchAll(open, Used(mounts, open, mount, rel)) ==
         (if found then Touch(above, Opened(mounts, mount, rel)) else above)
      && (|rel| == 1 ==> above == open && before == [])
  {
    hide Touch, Reached, Opened;
    var above := Used(mounts, open, mount, Parent(rel));
    TouchMore(open, above, Opened(mounts, mount, rel));
    if |rel| == 1 { assert above == [] && TouchAll(open, above) == open; }
  }

  lemma TouchMore<T>(s: seq<T>, xs: seq<T>, x: T)
    ensures TouchAll(s, xs + [x]) == Touch(TouchAll(s, xs), x)
    ensures xs + [] == xs
  {
    assert (xs + [x])[..|xs|] == xs;
  }

  /** Opening a directory's ancestors does not open the directory. */
  lemma StillAbsent(mounts: seq<MountDir>, open: seq<OpenDir>, mount: nat, rel: Path)
    requires mount < |mounts| && rel != [] && Opened(mounts, mount, rel) !in open
    ensures Opened(mounts, mount, rel) !in TouchAll(open, Used(mounts, open, mount, Parent(rel)))
  {
    hide Reached;
    UsedPrefixes(mounts, open, mount, Parent(rel));
    TouchAllMembers(open, Used(mounts, open, mount, Parent(rel)), Opened(mounts, mount, rel));
  }

  lemma {:induction false} TouchAllMembers<T>(s: seq<T>, xs: seq<T>, y: T)
    requires y !in s && y !in xs
    ensures y !in TouchAll(s, xs)
  {
    if xs != [] {
      var n := |xs| - 1;
      assert xs[n] in xs && forall x :: x in xs[..n] ==> x in xs;
      TouchAllMembers(s, xs[..n], y);
      WithoutMembers(TouchAll(s, xs[..n]), xs[n]);
    }
  }
}
