/** The direct backend's `mkdir`: what it charges is what it then creates, links on the way included. */
module DirectMkdir {
  import opened Paths
  import opened PlainFs
  import opened PlainLaws
  import opened OverlayStorage
  import OverlayOps

  const DIRECTORY_WRITE_BYTES := OverlayOps.DIRECTORY_WRITE_BYTES

  /** A host directory tree; `leads` gives the place inside it that a link ends at, whether or not anything is there. */
  datatype Host = Host(tree: Tree, leads: map<Path, Path>)

  ghost predicate HostValid(h: Host)
  {
    && WellFormed(h.tree)
    && forall p :: p in h.leads ==> p in h.tree && h.tree[p].Link?
  }

  /** The directory a path leads to, every component followed. */
  function RealDir(h: Host, p: Path): (r: Option<Path>)
    ensures r.Some? && [] in h.tree && h.tree[[]].Dir? ==> r.value in h.tree && h.tree[r.value].Dir?
  {
    if p == [] then Some([])
    else match RealDir(h, Parent(p))
      case None => None
      case Some(d) =>
        var q := d + [Last(p)];
        if q !in h.tree then None
        else match h.tree[q]
          case Dir => Some(q)
          case File(_) => None
          case Link(_) => if q in h.leads && h.leads[q] in h.tree && h.tree[h.leads[q]].Dir? then Some(h.leads[q]) else None
  }

  /** A directory's own path leads to it. */
  lemma {:induction false} RealDirItself(h: Host, d: Path)
    requires WellFormed(h.tree) && IsDirAt(h.tree, d)
    ensures RealDir(h, d) == Some(d)
  {
    if d != [] {
      assert Parent(d) < d;
      RealDirItself(h, Parent(d));
      assert Parent(d) + [Last(d)] == d;
    }
  }

  ghost predicate NoLinks(t: Tree)
  {
    forall p :: p in t ==> !t[p].Link?
  }

  /** Without links a path leads to itself, exactly where it is a directory. */
  lemma {:induction false} RealDirPlain(h: Host, p: Path)
    requires WellFormed(h.tree) && NoLinks(h.tree)
    ensures RealDir(h, p) == if IsDirAt(h.tree, p) then Some(p) else None
  {
    if p != [] {
      assert Parent(p) < p;
      RealDirPlain(h, Parent(p));
      assert Parent(p) + [Last(p)] == p;
    }
  }

  /** A link in a directory leads where it ends, if a directory is there, and nowhere otherwise. */
  lemma LinkLeads(h: Host, q: Path)
    requires HostValid(h) && q in h.tree && h.tree[q].Link?
    ensures RealDir(h, q) == if q in h.leads && IsDirAt(h.tree, h.leads[q]) then Some(h.leads[q]) else None
  {
    assert q != [] && Parent(q) < q;
    RealDirItself(h, Parent(q));
    assert Parent(q) + [Last(q)] == q;
  }

  /** What follows a path is looked up in the directory it leads to. */
  lemma {:induction false} RealDirThrough(h: Host, p: Path, rest: Path)
    requires HostValid(h) && RealDir(h, p).Some?
    ensures RealDir(h, p + rest) == RealDir(h, RealDir(h, p).value + rest)
  {
    var d := RealDir(h, p).value;
    if rest == [] {
      assert p + rest == p && d + rest == d;
      RealDirItself(h, d);
    } else {
      RealDirThrough(h, p, Parent(rest));
      assert Parent(p + rest) == p + Parent(rest) && Parent(d + rest) == d + Parent(rest);
      assert Last(p + rest) == Last(rest) && Last(d + rest) == Last(rest);
    }
  }

  /** Whether a lookup that does not follow the last component finds something. */
  predicate Present(h: Host, p: Path)
  {
    p == [] || (RealDir(h, Parent(p)).Some? && RealDir(h, Parent(p)).value + [Last(p)] in h.tree)
  }

  /** The length of the shortest absent prefix from `i` on, one past the whole where none is absent. */
  ghost function FirstAbsent(h: Host, p: Path, i: nat): (n: nat)
    requires 1 <= i <= |p| + 1
    ensures i <= n <= |p| + 1
    ensures forall j :: i <= j < n ==> Present(h, p[..j])
    ensures n <= |p| ==> !Present(h, p[..n])
    decreases |p| + 1 - i
  {
    if i > |p| || !Present(h, p[..i]) then i else FirstAbsent(h, p, i + 1)
  }

  /** How many directories a `mkdir` would create: from the shortest absent prefix on, or the target alone. */
  method MissingDirs(h: Host, p: Path, parents: bool) returns (n: nat)
    ensures n == if parents then |p| + 1 - FirstAbsent(h, p, 1) else if Present(h, p) then 0 else 1
  {
    if !parents {
      return if Present(h, p) then 0 else 1;
    }
    for i := 1 to |p| + 1
      invariant FirstAbsent(h, p, 1) == FirstAbsent(h, p, i)
    {
      if !Present(h, p[..i]) {
        return |p| + 1 - i;
      }
    }
    return 0;
  }

  /** Nothing is found below what is absent. */
  lemma {:induction false} AbsentBelow(h: Host, p: Path, n: nat)
    requires n <= |p| && !Present(h, p[..n])
    ensures !Present(h, p)
    decreases |p|
  {
    if n == |p| {
      assert p[..n] == p;
    } else {
      assert Parent(p)[..n] == p[..n];
      AbsentBelow(h, Parent(p), n);
    }
  }

  /** Where creation starts: the first absent prefix, or the target itself. */
  ghost function Start(h: Host, p: Path, parents: bool): nat
  {
    if parents then FirstAbsent(h, p, 1) else |p|
  }

  lemma StartsWithin(h: Host, p: Path, parents: bool)
    ensures FirstAbsent(h, p, 1) <= |p| <==> !Present(h, p)
    ensures !Present(h, p) ==> 1 <= Start(h, p, parents) <= |p| && !Present(h, p[..Start(h, p, parents)])
  {
    assert p[..|p|] == p;
    var n := FirstAbsent(h, p, 1);
    if n <= |p| { AbsentBelow(h, p, n); }
  }

  /** The directory creation starts in, if there is one. */
  ghost function Base(h: Host, p: Path, parents: bool): Option<Path>
    requires !Present(h, p)
  {
    StartsWithin(h, p, parents);
    RealDir(h, p[..Start(h, p, parents) - 1])
  }

  /** The directories made below it: each component from the start on, below the one before. */
  ghost function Made(base: Path, names: Path): set<Path>
  {
    set k | 1 <= k <= |names| :: base + names[..k]
  }

  ghost function Names(h: Host, p: Path, parents: bool): Path
    requires !Present(h, p)
  {
    StartsWithin(h, p, parents);
    p[Start(h, p, parents) - 1..]
  }

  /** The directories made are those the plain `mkdir` makes at the place the path leads to. */
  lemma MadeIsPlain(t: Tree, base: Path, names: Path, parents: bool, existOk: bool)
    requires WellFormed(t) && IsDirAt(t, base) && names != [] && base + names[..1] !in t && (parents || |names| == 1)
    ensures PlainFs.Mkdir(t, base + names, parents, existOk) == Ok(AddDirs(t, Made(base, names)))
  {
    hide MissingAbove, MakeChainError, ChainError, AddDirs;
    var p := base + names;
    FreeBelow(t, base, names, |names| - 1);
    assert names[..|names| - 1 + 1] == names;
    forall a | OnWay(a, p) ensures a in t <==> |a| <= |base| { MadeAt(t, base, names, a); }
    forall a | OnWay(a, p) ensures a in t ==> t[a].Dir? { MadeAt(t, base, names, a); }
    MkdirMeans(t, p, parents, existOk);
    MadeAreMissing(t, base, names);
    if !parents {
      assert names[..1] == names && Made(base, names) == {p} by { MadeSingle(base, names); }
      forall d | d < p ensures IsDirAt(t, d) { assert OnWay(d, p); }
    }
  }

  lemma MadeSingle(base: Path, names: Path)
    requires |names| == 1
    ensures Made(base, names) == {base + names}
  {
    assert names[..1] == names;
  }

  lemma MadeAt(t: Tree, base: Path, names: Path, a: Path)
    requires WellFormed(t) && IsDirAt(t, base) && names != [] && base + names[..1] !in t && a <= base + names
    ensures a in t <==> |a| <= |base|
    ensures a in t ==> t[a].Dir?
    ensures a in Made(base, names) <==> |a| > |base|
  {
    var p := base + names;
    assert a == p[..|a|];
    if |a| <= |base| {
      assert a == base[..|a|];
      assert a == base || a < base;
    } else {
      var k := |a| - |base|;
      assert a == base + names[..k];
      assert names[..1] == names[..k][..1];
      FreeBelow(t, base, names, k - 1);
    }
  }

  lemma MadeAreMissing(t: Tree, base: Path, names: Path)
    requires WellFormed(t) && IsDirAt(t, base) && names != [] && base + names[..1] !in t
    ensures MissingAbove(t, base + names) == Made(base, names)
  {
    hide MissingAbove, Made;
    var p := base + names;
    forall d ensures d in MissingAbove(t, p) <==> d in Made(base, names) {
      MissingMeans(t, p, d);
      if d <= p { MadeAt(t, base, names, d); } else { MadeWithin(base, names, d); }
    }
  }

  lemma MadeWithin(base: Path, names: Path, d: Path)
    ensures d in Made(base, names) ==> d <= base + names
  {
  }

  lemma MadeOne(base: Path, names: Path, k: nat)
    requires k < |names|
    ensures Made(base, names[..k + 1]) == Made(base, names[..k]) + {base + names[..k + 1]}
    ensures base + names[..k + 1] !in Made(base, names[..k])
  {
    var a, b := Made(base, names[..k + 1]), Made(base, names[..k]) + {base + names[..k + 1]};
    forall i | 1 <= i <= k ensures names[..k + 1][..i] == names[..k][..i] {}
    assert names[..k + 1][..k + 1] == names[..k + 1];
    forall d ensures d in a <==> d in b {
      if d in a {
        var i :| 1 <= i <= k + 1 && d == base + names[..k + 1][..i];
        if i <= k { assert d == base + names[..k][..i]; }
      }
      if d in Made(base, names[..k]) {
        var i :| 1 <= i <= k && d == base + names[..k][..i];
        assert d == base + names[..k + 1][..i];
      }
    }
  }

  /** A new directory's children are absent, so the next name is free. */
  lemma FreeBelow(t: Tree, base: Path, names: Path, k: nat)
    requires WellFormed(t) && k < |names| && base + names[..1] !in t
    ensures base + names[..k + 1] !in t
  {
    assert base + names[..1] <= base + names[..k + 1];
    assert k > 0 ==> base + names[..1] < base + names[..k + 1];
  }

  lemma AddDirsAt(t: Tree, ds: set<Path>, d: Path)
    ensures d in AddDirs(t, ds) <==> d in t || d in ds
    ensures d in AddDirs(t, ds) ==> AddDirs(t, ds)[d] == if d in ds then Dir else t[d]
  {
  }

  lemma AddOne(t: Tree, ds: set<Path>, next: Path)
    requires next !in t && next !in ds
    ensures next !in AddDirs(t, ds) && AddDirs(t, ds)[next := Dir] == AddDirs(t, ds + {next})
    ensures |AddDirs(t, ds)[next := Dir].Keys - t.Keys| == |AddDirs(t, ds).Keys - t.Keys| + 1
  {
    hide AddDirs;
    var w, v := AddDirs(t, ds)[next := Dir], AddDirs(t, ds + {next});
    forall d ensures d in w <==> d in v {
      AddDirsAt(t, ds, d);
      AddDirsAt(t, ds + {next}, d);
    }
    forall d | d in w ensures w[d] == v[d] {
      AddDirsAt(t, ds, d);
      AddDirsAt(t, ds + {next}, d);
    }
    assert w == v;
    AddDirsAt(t, ds, next);
    assert w.Keys - t.Keys == (AddDirs(t, ds).Keys - t.Keys) + {next};
  }

  /** Making one more directory. */
  lemma MakeOne(t: Tree, u: Tree, base: Path, names: Path, k: nat)
    requires WellFormed(t) && WellFormed(u) && k < |names| && base + names[..1] !in t
    requires u == AddDirs(t, Made(base, names[..k])) && base + names[..k] in u && u[base + names[..k]].Dir?
    ensures
      var next := base + names[..k + 1];
      && next !in u && WellFormed(u[next := Dir]) && u[next := Dir] == AddDirs(t, Made(base, names[..k + 1]))
      && |u[next := Dir].Keys - t.Keys| == |u.Keys - t.Keys| + 1
  {
    hide WellFormed, Made, AddDirs;
    var next := base + names[..k + 1];
    MadeOne(base, names, k);
    FreeBelow(t, base, names, k);
    AddOne(t, Made(base, names[..k]), next);
    assert Parent(next) == base + names[..k];
    ChainOk(u, Parent(next));
    PutKeepsForm(u, next, Dir);
  }

  lemma NoneMade(t: Tree, base: Path, names: Path)
    ensures AddDirs(t, Made(base, names[..0])) == t && base + names[..0] == base && t.Keys - t.Keys == {}
  {
    assert Made(base, names[..0]) == {};
  }

  /** A mount served straight from its host directory. */
  class DirectMount {
    var host: Host
    var writeUsed: nat
    const writeLimit: Option<nat>

    ghost predicate Valid()
      reads this
    {
      && HostValid(host)
      && (writeLimit.Some? ==> writeUsed <= writeLimit.value < U64_MAX)
    }

    constructor (host: Host, writeLimit: Option<nat>)
      requires HostValid(host) && (writeLimit.Some? ==> writeLimit.value < U64_MAX)
      ensures Valid() && this.host == host && this.writeLimit == writeLimit && writeUsed == 0
    {
      this.host, this.writeLimit := host, writeLimit;
      writeUsed := 0;
    }

    /** Makes each name below the last, from an existing directory on. */
    method MakeBelow(base: Path, names: Path)
      requires Valid() && base in host.tree && host.tree[base].Dir? && names != [] && base + names[..1] !in host.tree
      modifies this`host
      ensures Valid() && host == old(host).(tree := AddDirs(old(host.tree), Made(base, names)))
      ensures |host.tree.Keys - old(host.tree).Keys| == |names|
    {
      hide WellFormed, Made, AddDirs;
      ghost var t := host.tree;
      NoneMade(t, base, names);
      for k := 0 to |names|
        invariant Valid() && host == old(host).(tree := AddDirs(t, Made(base, names[..k])))
        invariant |host.tree.Keys - t.Keys| == k
        invariant base + names[..k] in host.tree && host.tree[base + names[..k]].Dir?
      {
        MakeOne(t, host.tree, base, names, k);
        host := host.(tree := host.tree[base + names[..k + 1] := Dir]);
      }
      assert names[..|names|] == names;
    }

    /**
     * Creates a directory on the host, with its parents if asked: below the
     * directory the existing part of the path leads to, links followed.
     */
    method HostMkdir(p: Path, parents: bool, existOk: bool) returns (r: Result<()>)
      requires Valid()
      modifies this`host
      ensures Valid()
      ensures Present(old(host), p) ==>
        && r == (if existOk && RealDir(old(host), p).Some? then Ok(()) else Err(AlreadyExists))
        && host == old(host)
      ensures !Present(old(host), p) ==>
        match Base(old(host), p, parents)
        case None => r.Err? && host == old(host)
        case Some(base) =>
          && r.Ok? && host == old(host).(tree := AddDirs(old(host.tree), Made(base, Names(old(host), p, parents))))
          && |host.tree.Keys - old(host.tree).Keys| == |p| + 1 - Start(old(host), p, parents)
    {
      hide HostValid, Made, AddDirs, RealDir, Present, FirstAbsent, Base, Names;
      ghost var h := host;
      StartsWithin(host, p, parents);
      if Present(host, p) {
        return if existOk && RealDir(host, p).Some? then Ok(()) else Err(AlreadyExists);
      }
      var missing := MissingDirs(host, p, parents);
      var n := |p| + 1 - missing;
      var base := RealDir(host, p[..n - 1]);
      PlaceIs(h, p, parents, n);
      if base == None { return Err(NotADirectory); }
      StartsFree(host, p, n);
      MakeBelow(base.value, p[n - 1..]);
      return Ok(());
    }

    /** Checks the whole charge before anything is created and records it once it is. */
    method Mkdir(p: Path, parents: bool, existOk: bool) returns (r: Result<()>)
      requires Valid()
      modifies this
      ensures Valid()
      ensures
        var h := old(host);
        var made := if Present(h, p) then 0 else |p| + 1 - Start(h, p, parents);
        if writeLimit.Some? && SatAdd(old(writeUsed), made * DIRECTORY_WRITE_BYTES) > writeLimit.value then
          r == Err(WriteLimit) && host == h
        else if Present(h, p) then
          r == (if existOk && RealDir(h, p).Some? then Ok(()) else Err(AlreadyExists)) && host == h
        else match Base(h, p, parents)
          case None => r.Err? && host == h
          case Some(base) => r.Ok? && host == h.(tree := AddDirs(h.tree, Made(base, Names(h, p, parents))))
      // without links it is the plain `mkdir`, within the limit
      ensures NoLinks(old(host).tree) && !(writeLimit.Some? && r == Err(WriteLimit)) ==>
        var plain := PlainFs.Mkdir(old(host).tree, p, parents, existOk);
        (r.Ok? <==> plain.Ok?) && (r.Ok? ==> host.tree == plain.value)
      // each directory that appears is charged one block
      ensures
        var appeared := host.tree.Keys - old(host.tree).Keys;
        writeUsed == old(writeUsed) + if writeLimit.Some? then |appeared| * DIRECTORY_WRITE_BYTES else 0
    {
      hide HostValid, Made, AddDirs, RealDir, Names, Base, PlainFs.Mkdir, NoLinks;
      ghost var h := host;
      if NoLinks(h.tree) { DirectIsPlain(h, p, parents, existOk); }
      assert h.tree.Keys - h.tree.Keys == {};
      StartsWithin(h, p, parents);
      var missing := MissingDirs(host, p, parents);
      assert missing == if Present(h, p) then 0 else |p| + 1 - Start(h, p, parents);
      var charge := if writeLimit.Some? then missing * DIRECTORY_WRITE_BYTES else 0;
      if writeLimit.Some? && SatAdd(writeUsed, charge) > writeLimit.value {
        return Err(WriteLimit);
      }
      r := HostMkdir(p, parents, existOk);
      if r.Ok? && writeLimit.Some? {
        writeUsed := SatAdd(writeUsed, charge);
      }
    }
  }

  /**
   * Creating through links is the plain `mkdir` at the place the path leads to;
   * on a host without links it is the plain `mkdir`.
   */
  lemma CreatesPlainly(h: Host, p: Path, parents: bool, existOk: bool)
    requires HostValid(h) && !Present(h, p)
    ensures Base(h, p, parents).Some? ==>
      PlainFs.Mkdir(h.tree, Base(h, p, parents).value + Names(h, p, parents), parents, existOk) ==
      Ok(AddDirs(h.tree, Made(Base(h, p, parents).value, Names(h, p, parents))))
    ensures Base(h, p, parents).Some? && NoLinks(h.tree) ==> Base(h, p, parents).value + Names(h, p, parents) == p
  {
    hide Made, AddDirs, RealDir, Present, FirstAbsent;
    StartsWithin(h, p, parents);
    var n := Start(h, p, parents);
    PlaceIs(h, p, parents, n);
    if Base(h, p, parents).Some? {
      StartsFree(h, p, n);
      MadeIsPlain(h.tree, Base(h, p, parents).value, Names(h, p, parents), parents, existOk);
      if NoLinks(h.tree) {
        RealDirPlain(h, p[..n - 1]);
        assert p[..n - 1] + p[n - 1..] == p;
      }
    }
  }

  lemma PresentPlain(h: Host, p: Path)
    requires HostValid(h) && NoLinks(h.tree)
    ensures Present(h, p) <==> p in h.tree
  {
    if p != [] {
      RealDirPlain(h, Parent(p));
      assert Parent(p) + [Last(p)] == p && Parent(p) < p;
    }
  }

  /** On a host without links the direct `mkdir` succeeds exactly where the plain one does. */
  lemma DirectIsPlain(h: Host, p: Path, parents: bool, existOk: bool)
    requires HostValid(h) && NoLinks(h.tree)
    ensures
      var plain := PlainFs.Mkdir(h.tree, p, parents, existOk);
      && (Present(h, p) <==> p in h.tree)
      && (plain.Ok? <==> if Present(h, p) then existOk && RealDir(h, p).Some? else Base(h, p, parents).Some?)
      && (plain.Ok? && Present(h, p) ==> plain.value == h.tree)
      && (plain.Ok? && !Present(h, p) ==>
        plain.value == AddDirs(h.tree, Made(Base(h, p, parents).value, Names(h, p, parents))))
  {
    hide Made, AddDirs, RealDir, Present, FirstAbsent, Names, MissingAbove, MakeChainError, ChainError;
    PresentPlain(h, p);
    if Present(h, p) {
      RealDirPlain(h, p);
    } else {
      CreatesPlainly(h, p, parents, existOk);
      if Base(h, p, parents) == None { BasePlain(h, p, parents, existOk); }
    }
  }

  lemma BasePlain(h: Host, p: Path, parents: bool, existOk: bool)
    requires HostValid(h) && NoLinks(h.tree) && !Present(h, p) && Base(h, p, parents) == None
    ensures PlainFs.Mkdir(h.tree, p, parents, existOk).Err?
  {
    hide RealDir, MissingAbove, MakeChainError, ChainError, Present;
    StartsWithin(h, p, parents);
    var n := Start(h, p, parents);
    PlaceIs(h, p, parents, n);
    var stop := p[..n - 1];
    RealDirPlain(h, stop);
    PresentPlain(h, p);
    MkdirMeans(h.tree, p, parents, existOk);
    assert OnWay(stop, p) && stop < p;
    if parents && n > 1 { PresentPlain(h, stop); }
  }

  lemma PlaceIs(h: Host, p: Path, parents: bool, n: nat)
    requires !Present(h, p) && n == Start(h, p, parents)
    ensures 1 <= n <= |p| && Base(h, p, parents) == RealDir(h, p[..n - 1]) && Names(h, p, parents) == p[n - 1..]
  {
    hide Present, RealDir;
    StartsWithin(h, p, parents);
  }

  /** The first name to make is free in the directory creation starts in. */
  lemma StartsFree(h: Host, p: Path, n: nat)
    requires HostValid(h) && 1 <= n <= |p| && !Present(h, p[..n]) && RealDir(h, p[..n - 1]).Some?
    ensures
      var base := RealDir(h, p[..n - 1]).value;
      base in h.tree && h.tree[base].Dir? && base + p[n - 1..][..1] !in h.tree
  {
    hide RealDir;
    assert Parent(p[..n]) == p[..n - 1];
    assert p[n - 1..][..1] == [Last(p[..n])];
  }
}
