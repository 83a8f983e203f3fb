/** Mount registration and longest-prefix routing. */
module MountTables {
  import opened Paths
  import opened Keys
  import opened VirtualPath

  /** A mount as the table sees it: where it answers, its canonical host directory, and that directory's identity. */
  datatype Mount = Mount(virtualPath: Bytes, hostPath: Path, identity: Option<nat>)

  datatype TableError = OverlappingMounts | CrossMountRename | NameTooLong | EmbeddedNullByte

  datatype TableResult<+T> = Ok(value: T) | Err(error: TableError)

  /** Whether two mounts collide: one directory, nested host paths, or one virtual path. */
  predicate MountsOverlap(a: Mount, b: Mount)
  {
    || (a.identity.Some? && a.identity == b.identity)
    || b.hostPath <= a.hostPath
    || a.hostPath <= b.hostPath
    || a.virtualPath == b.virtualPath
  }

  /** The mount's virtual path is at or above `p`, component by component. */
  ghost predicate Covers(m: Mount, p: Path)
  {
    Components(m.virtualPath) <= p
  }

  ghost predicate LongestFirst(mounts: seq<Mount>)
  {
    forall i, j :: 0 <= i < j < |mounts| ==> |mounts[i].virtualPath| >= |mounts[j].virtualPath|
  }

  ghost predicate Disjoint(mounts: seq<Mount>)
  {
    forall i, j :: 0 <= i < j < |mounts| ==> !MountsOverlap(mounts[i], mounts[j])
  }

  ghost predicate Normalized(mounts: seq<Mount>)
  {
    forall i :: 0 <= i < |mounts| ==> IsNormalized(mounts[i].virtualPath)
  }

  ghost predicate ValidTable(mounts: seq<Mount>)
  {
    Normalized(mounts) && LongestFirst(mounts) && Disjoint(mounts)
  }

  /** A longer covering mount has a longer string, and the other way round. */
  lemma LongerIsDeeper(a: Mount, b: Mount, p: Path)
    requires IsNormalized(a.virtualPath) && IsNormalized(b.virtualPath)
    requires Covers(a, p) && Covers(b, p) && a.virtualPath != b.virtualPath
    requires |a.virtualPath| >= |b.virtualPath|
    ensures |Components(a.virtualPath)| > |Components(b.virtualPath)|
  {
    hide IsNormalized, Components, Render;
    NormalizedIsRendered(a.virtualPath);
    NormalizedIsRendered(b.virtualPath);
    var x, y := Components(a.virtualPath), Components(b.virtualPath);
    if |x| <= |y| {
      assert x == y[..|x|];
      if x == y {
        assert false;
      } else {
        ShorterRendered(x, y);
      }
    }
  }

  lemma ShorterRendered(x: Path, y: Path)
    requires ProperPath(y) && x < y
    ensures |Render(x)| < |Render(y)|
  {
    hide Key;
    assert ProperPath(x) by { assert forall i :: 0 <= i < |x| ==> x[i] == y[i]; }
    SpellKey(y);
    KeyEmpty(y);
    if x != [] {
      SpellKey(x);
      KeyBelow(x, y);
    }
  }

  class MountTable {
    /** Longest virtual path first. */
    var mounts: seq<Mount>

    ghost predicate Valid()
      reads this
    {
      ValidTable(mounts)
    }

    constructor ()
      ensures Valid() && mounts == []
    {
      mounts := [];
    }

    /**
     * Adds a mount unless it collides with one already there: nested host
     * paths, a directory known to be the same, or one virtual path.
     */
    method PushMount(mount: Mount) returns (r: TableResult<()>)
      requires Valid() && IsNormalized(mount.virtualPath)
      modifies this
      ensures Valid() && Unnested(mounts)
      ensures r == Ok(()) || r == Err(OverlappingMounts)
      ensures r.Ok? <==> Unnested(old(mounts) + [mount])
      ensures r.Err? ==> mounts == old(mounts)
      ensures r.Ok? ==> exists k :: 0 <= k <= |old(mounts)| && mounts == old(mounts)[..k] + [mount] + old(mounts)[k..]
    {
      hide MountsOverlap, IsNormalized, Unnested;
      DisjointMeans(mounts);
      for i := 0 to |mounts|
        invariant forall j :: 0 <= j < i ==> !MountsOverlap(mounts[j], mount)
      {
        if MountsOverlap(mounts[i], mount) {
          OverlapNests(mounts, mount, i);
          return Err(OverlappingMounts);
        }
      }
      ApartUnnested(mounts, mount);
      var at := 0;
      while at < |mounts| && |mounts[at].virtualPath| > |mount.virtualPath|
        invariant 0 <= at <= |mounts|
        invariant forall j :: 0 <= j < at ==> |mounts[j].virtualPath| > |mount.virtualPath|
      {
        at := at + 1;
      }
      InsertKeepsTable(mounts, mount, at);
      DisjointMeans(mounts[..at] + [mount] + mounts[at..]);
      mounts := mounts[..at] + [mount] + mounts[at..];
      return Ok(());
    }
  }

  /** No host directory lies at or below another's, and virtual paths and known directories are distinct. */
  ghost predicate Unnested(mounts: seq<Mount>)
  {
    forall i, j :: 0 <= i < |mounts| && 0 <= j < |mounts| && i != j ==>
      && !(mounts[i].hostPath <= mounts[j].hostPath)
      && mounts[i].virtualPath != mounts[j].virtualPath
      && (mounts[i].identity.Some? && mounts[j].identity.Some? ==> mounts[i].identity.value != mounts[j].identity.value)
  }

  lemma DisjointMeans(mounts: seq<Mount>)
    requires Disjoint(mounts)
    ensures Unnested(mounts)
  {
    forall i, j | 0 <= i < |mounts| && 0 <= j < |mounts| && i != j
      ensures !MountsOverlap(mounts[i], mounts[j])
    {
      if i < j {
        assert !MountsOverlap(mounts[i], mounts[j]);
      } else {
        assert !MountsOverlap(mounts[j], mounts[i]);
      }
    }
  }

  lemma OverlapNests(mounts: seq<Mount>, mount: Mount, i: nat)
    requires i < |mounts| && MountsOverlap(mounts[i], mount)
    ensures !Unnested(mounts + [mount])
  {
    var more := mounts + [mount];
    assert more[i] == mounts[i] && more[|mounts|] == mount;
  }

  lemma ApartUnnested(mounts: seq<Mount>, mount: Mount)
    requires Disjoint(mounts) && forall j :: 0 <= j < |mounts| ==> !MountsOverlap(mounts[j], mount)
    ensures Unnested(mounts + [mount])
  {
    hide MountsOverlap;
    var more := mounts + [mount];
    assert Disjoint(more);
    DisjointMeans(more);
  }

  lemma InsertedAt(mounts: seq<Mount>, mount: Mount, at: nat, j: nat)
    requires at <= |mounts| && j <= |mounts|
    ensures (mounts[..at] + [mount] + mounts[at..])[j] ==
            if j < at then mounts[j] else if j == at then mount else mounts[j - 1]
  {
  }

  lemma OverlapSymmetric(a: Mount, b: Mount)
    ensures MountsOverlap(a, b) <==> MountsOverlap(b, a)
  {
  }

  lemma InsertKeepsTable(mounts: seq<Mount>, mount: Mount, at: nat)
    requires ValidTable(mounts) && IsNormalized(mount.virtualPath) && at <= |mounts|
    requires forall j :: 0 <= j < |mounts| ==> !MountsOverlap(mounts[j], mount)
    requires forall j :: 0 <= j < at ==> |mounts[j].virtualPath| > |mount.virtualPath|
    requires at < |mounts| ==> |mounts[at].virtualPath| <= |mount.virtualPath|
    ensures ValidTable(mounts[..at] + [mount] + mounts[at..])
  {
    hide IsNormalized, MountsOverlap;
    var after := mounts[..at] + [mount] + mounts[at..];
    forall j | 0 <= j < |after|
      ensures after[j] == if j < at then mounts[j] else if j == at then mount else mounts[j - 1]
    {
      InsertedAt(mounts, mount, at, j);
    }
    forall i, j | 0 <= i < j < |after|
      ensures |after[i].virtualPath| >= |after[j].virtualPath| && !MountsOverlap(after[i], after[j])
    {
      if i == at { OverlapSymmetric(mount, after[j]); }
    }
  }

  /** The index of the mount with the longest prefix of a path, found as the first that matches. */
  method FindMount(mounts: seq<Mount>, virtualPath: Bytes) returns (r: Option<nat>)
    requires ValidTable(mounts)
    ensures r == None <==> forall j :: 0 <= j < |mounts| ==> !Covers(mounts[j], Components(virtualPath))
    ensures r.Some? ==> r.value < |mounts| && Covers(mounts[r.value], Components(virtualPath))
    ensures r.Some? ==> forall j :: 0 <= j < |mounts| && j != r.value && Covers(mounts[j], Components(virtualPath)) ==>
      |Components(mounts[j].virtualPath)| < |Components(mounts[r.value].virtualPath)|
  {
    hide IsNormalized, Components, Render, PathMatchesMount, MountsOverlap;
    ghost var p := Components(virtualPath);
    var normalized := Normalize(virtualPath);
    for i := 0 to |mounts|
      invariant forall j :: 0 <= j < i ==> !Covers(mounts[j], p)
    {
      MatchMeansCovers(mounts[i], virtualPath);
      if PathMatchesMount(normalized, mounts[i].virtualPath) {
        forall j | i < j < |mounts| && Covers(mounts[j], p)
          ensures |Components(mounts[j].virtualPath)| < |Components(mounts[i].virtualPath)|
        {
          DistinctPaths(mounts, i, j);
          LongerIsDeeper(mounts[i], mounts[j], p);
        }
        return Some(i);
      }
    }
    return None;
  }

  lemma DistinctPaths(mounts: seq<Mount>, i: nat, j: nat)
    requires Disjoint(mounts) && i < j < |mounts|
    ensures mounts[i].virtualPath != mounts[j].virtualPath
  {
  }

  lemma MatchMeansCovers(m: Mount, virtualPath: Bytes)
    requires IsNormalized(m.virtualPath)
    ensures PathMatchesMount(Render(Components(virtualPath)), m.virtualPath) <==> Covers(m, Components(virtualPath))
  {
    hide Components, Render, PathMatchesMount;
    NormalizedIsRendered(m.virtualPath);
    MatchIsPrefix(Components(virtualPath), Components(m.virtualPath));
  }

  /** A routed path always resolves on its mount, to the key of its components below the mount's. */
  lemma RoutedResolves(m: Mount, virtualPath: Bytes)
    requires IsNormalized(m.virtualPath)
    ensures
      var p := Components(virtualPath);
      StripMountPrefix(Render(p), m.virtualPath) ==
      if Covers(m, p) then Some(Key(p[|Components(m.virtualPath)|..])) else None
  {
    hide Components, Render, StripMountPrefix;
    NormalizedIsRendered(m.virtualPath);
    MatchIsPrefix(Components(virtualPath), Components(m.virtualPath));
  }

  // ---- length limits and routing -------------------------------------------

  const PATH_MAX: nat := 4096
  const NAME_MAX: nat := 255
  const DEPTH_MAX: nat := 64

  /** A path past one of the limits, counted as it was sent. */
  predicate Overlong(path: Bytes)
  {
    || |path| > PATH_MAX
    || |Split(path)| > DEPTH_MAX
    || exists i :: 0 <= i < |Split(path)| && |Split(path)[i]| > NAME_MAX
  }

  /** Looks at no more components than the depth limit allows. */
  method RejectOverlongPath(path: Bytes) returns (tooLong: bool)
    ensures tooLong <==> Overlong(path)
    ensures !tooLong <==> |path| <= 4096 && |Split(path)| <= 64 && forall i :: 0 <= i < |Split(path)| ==> |Split(path)[i]| <= 255
  {
    if |path| > PATH_MAX { return true; }
    var components := Split(path);
    var scanned := if |components| > DEPTH_MAX then DEPTH_MAX else |components|;
    for i := 0 to scanned
      invariant forall j :: 0 <= j < i ==> |components[j]| <= NAME_MAX
    {
      if |components[i]| > NAME_MAX { return true; }
    }
    return |components| > DEPTH_MAX;
  }

  /** Routes a call: a rename needs both ends on one mount, and one end alone on a mount is refused. */
  method RouteCall(mounts: seq<Mount>, primary: Bytes, destination: Option<Bytes>) returns (r: Option<TableResult<nat>>)
    requires ValidTable(mounts)
    ensures destination == None ==> (r == None || r.value.Ok?)
    ensures r == Some(Err(NameTooLong)) <==> destination.Some? && Overlong(destination.value)
    ensures r == Some(Err(EmbeddedNullByte)) <==>
      destination.Some? && !Overlong(destination.value) && 0 in destination.value
    ensures r != Some(Err(OverlappingMounts))
    ensures r.Some? && r.value.Ok? ==>
      var i := r.value.value;
      && IsRoute(mounts, primary, i)
      && (destination.Some? ==> !Overlong(destination.value) && 0 !in destination.value
                                && IsRoute(mounts, destination.value, i))
    ensures r == Some(Err(CrossMountRename)) ==>
      && destination.Some? && !(exists i :: IsRoute(mounts, primary, i) && IsRoute(mounts, destination.value, i))
      && !(Unrouted(mounts, primary) && Unrouted(mounts, destination.value))
    ensures r == None ==> Unrouted(mounts, primary) && (destination.Some? ==> Unrouted(mounts, destination.value))
  {
    hide Covers, ValidTable, Overlong, Components;
    var src := FindMount(mounts, primary);
    if destination == None {
      return if src.Some? then Some(TableResult.Ok(src.value)) else None;
    }
    var overlong := RejectOverlongPath(destination.value);
    if overlong { return Some(Err(NameTooLong)); }
    if 0 in destination.value { return Some(Err(EmbeddedNullByte)); }
    var dst := FindMount(mounts, destination.value);
    if src == None && dst == None { return None; }
    if src.Some? && src == dst { return Some(TableResult.Ok(src.value)); }
    return Some(Err(CrossMountRename));
  }

  /** The mount with the longest prefix of a path. */
  ghost predicate IsRoute(mounts: seq<Mount>, path: Bytes, i: nat)
  {
    && i < |mounts| && Covers(mounts[i], Components(path))
    && forall j :: 0 <= j < |mounts| && j != i && Covers(mounts[j], Components(path)) ==>
         |Components(mounts[j].virtualPath)| < |Components(mounts[i].virtualPath)|
  }

  ghost predicate Unrouted(mounts: seq<Mount>, path: Bytes)
  {
    forall j :: 0 <= j < |mounts| ==> !Covers(mounts[j], Components(path))
  }
}
