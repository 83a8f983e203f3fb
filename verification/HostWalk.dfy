/**
 * Lookups on the host tree.  Whole-path lookups carry a precondition that no
 * component they resolve through is a link, so that every caller proves the
 * overlay never follows one.
 */
module HostWalk {
  import opened Paths
  import opened PlainFs

  datatype RealTarget = RealDir | RealFile | RealSymlink | RealAbsent

  ghost predicate LinkOn(host: Tree, p: Path)
  {
    exists h :: h in host && h <= p && host[h].Link?
  }

  ghost predicate LinkAbove(host: Tree, p: Path)
  {
    exists h :: h in host && h < p && host[h].Link?
  }

  /** Whether a lookup of `p` runs into a plain file part-way. */
  predicate FileAbove(host: Tree, p: Path)
  {
    exists i | 0 <= i < |p| :: p[..i] in host && host[p[..i]].File?
  }

  function KindOf(n: Node): RealTarget
  {
    match n
    case Dir => RealDir
    case File(_) => RealFile
    case Link(_) => RealSymlink
  }

  function KindAt(host: Tree, p: Path): RealTarget
  {
    if p in host then KindOf(host[p]) else RealAbsent
  }

  /**
   * One `lstat` of a whole path: only a genuinely missing name is `RealAbsent`,
   * a path running through a plain file is an error.
   */
  function ClassifyTarget(host: Tree, p: Path): Result<RealTarget>
    requires !LinkAbove(host, p)
  {
    if p in host then Ok(KindOf(host[p]))
    else if FileAbove(host, p) then Err(NotADirectory)
    else Ok(RealAbsent)
  }

  /** One following `stat`, of a path that holds no link to follow. */
  function Metadata(host: Tree, p: Path): Result<Node>
    requires !LinkOn(host, p)
  {
    if p in host then Ok(host[p])
    else if FileAbove(host, p) then Err(NotADirectory)
    else Err(NotFound)
  }

  predicate HostIsDir(host: Tree, p: Path)
    requires !LinkOn(host, p)
  {
    Metadata(host, p) == Ok(Dir)
  }

  predicate HostExists(host: Tree, p: Path)
    requires !LinkOn(host, p)
  {
    Metadata(host, p).Ok?
  }

  /** Classifies a path one component at a time, descending a directory handle as it goes. */
  class ComponentWalk {
    const host: Tree
    /** The deepest directory opened so far. */
    var here: Path
    /** Set once a component is not a directory: nothing below it can exist. */
    var exhausted: bool
    ghost var walked: Path

    ghost predicate Valid()
      reads this
    {
      && WellFormed(host)
      && (!exhausted ==> here == walked && here in host && host[here].Dir?)
      && (exhausted ==> Empty(host, walked))
    }

    constructor (host: Tree)
      requires WellFormed(host)
      ensures Valid() && walked == [] && this.host == host
    {
      this.host := host;
      here := [];
      exhausted := false;
      walked := [];
    }

    method Step(component: Name) returns (target: RealTarget)
      requires Valid()
      modifies this
      ensures Valid() && walked == old(walked) + [component]
      ensures target == KindAt(host, walked)
    {
      walked := walked + [component];
      assert old(walked) < walked;
      if exhausted {
        return RealAbsent;
      }
      var child := here + [component];
      target := KindAt(host, child);
      if target == RealDir {
        here := child;
      } else {
        exhausted := true;
        FileIsEmpty(host, child);
      }
    }
  }

  /** Refuses a path any component of which is a link. */
  method RejectSymlinkChain(host: Tree, p: Path) returns (r: Result<()>)
    requires WellFormed(host)
    ensures r == if LinkOn(host, p) then Err(PathEscape) else Ok(())
  {
    var walk := new ComponentWalk(host);
    for i := 0 to |p|
      invariant walk.Valid() && walk.host == host && walk.walked == p[..i]
      invariant p[..i] in host && host[p[..i]].Dir?
    {
      var target := walk.Step(p[i]);
      assert p[..i + 1] == p[..i] + [p[i]];
      match target {
        case RealSymlink =>
          assert p[..i + 1] <= p;
          return Err(PathEscape);
        case RealAbsent | RealFile =>
          LinkFreeChain(host, p, i + 1);
          return Ok(());
        case RealDir =>
      }
    }
    assert p[..|p|] == p;
    assert |p| > 0 ==> p[..|p| - 1] < p;
    LinkFreeChain(host, p, |p|);
    return Ok(());
  }

  /** Below a prefix whose parents are directories and that is no link, there is no link. */
  lemma LinkFreeChain(host: Tree, p: Path, n: nat)
    requires WellFormed(host) && n <= |p|
    requires !(p[..n] in host && host[p[..n]].Link?)
    requires n > 0 ==> p[..n - 1] in host && host[p[..n - 1]].Dir?
    requires n < |p| ==> !(p[..n] in host && host[p[..n]].Dir?)
    ensures !LinkOn(host, p)
  {
    forall h | h in host && h <= p ensures !host[h].Link? {
      assert h == p[..|h|];
      if |h| < n {
        assert h == p[..n - 1] || h < p[..n - 1];
      }
    }
  }
}
