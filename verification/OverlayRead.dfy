/** The overlay's queries: each answers from the merged view, though none builds it. */
module OverlayRead {
  import opened Paths
  import opened PlainFs
  import opened OverlayView
  import opened OverlayStorage
  import opened HostWalk
  import opened OverlayOps
  import opened OverlayRemove

  /** Whether the host path resolves, answering no for anything refused. */
  method RealPathExists(host: Tree, p: Path) returns (found: Option<Node>)
    requires WellFormed(host)
    ensures found == if p in host && !host[p].Link? then Some(host[p]) else None
  {
    var chain := RejectSymlinkChain(host, p);
    if chain.Err? {
      if p in host && !host[p].Link? { NoLinkOnNode(host, p); }
      return None;
    }
    LinkOnImplies(host, p);
    var meta := Metadata(host, p);
    found := match meta case Ok(n) => Some(n) case Err(_) => None;
  }

  method Exists(entries: Entries, host: Tree, p: Path) returns (b: bool)
    requires Inv(host, entries)
    ensures b == Describe(Look(host, entries, p)).resolves
  {
    if p in entries {
      assert EntryValid(host, entries[p]);
      return !entries[p].Deleted?;
    }
    var found := RealPathExists(host, p);
    b := found.Some?;
  }

  method IsFile(entries: Entries, host: Tree, p: Path) returns (b: bool)
    requires Inv(host, entries)
    ensures b == Describe(Look(host, entries, p)).isFile
  {
    if p in entries {
      assert EntryValid(host, entries[p]);
      return entries[p].FileEntry? || entries[p].RefEntry?;
    }
    var found := RealPathExists(host, p);
    b := found.Some? && found.value.File?;
  }

  method IsDir(entries: Entries, host: Tree, p: Path) returns (b: bool)
    requires Inv(host, entries)
    ensures b == Describe(Look(host, entries, p)).isDir
  {
    if p in entries {
      return entries[p].DirEntry?;
    }
    var found := RealPathExists(host, p);
    b := found.Some? && found.value.Dir?;
  }

  method IsSymlink(entries: Entries, host: Tree, p: Path) returns (b: bool)
    requires Inv(host, entries)
    ensures b == Describe(Look(host, entries, p)).isSymlink
  {
    if p in entries {
      return false;
    }
    var parent := if p == [] then [] else Parent(p);
    var chain := RejectSymlinkChain(host, parent);
    ParentChain(host, p);
    if chain.Err? { return false; }
    var found := ClassifyTarget(host, p);
    b := found == Ok(RealSymlink);
  }

  /** A link-free parent chain leaves at most the name itself to be a link. */
  lemma ParentChain(host: Tree, p: Path)
    requires WellFormed(host)
    ensures
      var parent := if p == [] then [] else Parent(p);
      if LinkOn(host, parent) then p !in host else !LinkAbove(host, p)
  {
    var parent := if p == [] then [] else Parent(p);
    if LinkOn(host, parent) {
      var h :| h in host && h <= parent && host[h].Link?;
      assert h < p || (p == [] && h == []);
    } else {
      forall h | h in host && h < p ensures !host[h].Link? {
        assert h <= parent;
      }
    }
  }

  /** Answers the four predicates in one walk of the parent chain and one lookup of the name. */
  method PathInfoOf(entries: Entries, host: Tree, p: Path) returns (info: PathInfo)
    requires Inv(host, entries)
    ensures info == Describe(Look(host, entries, p))
  {
    if p in entries {
      assert EntryValid(host, entries[p]);
      match entries[p] {
        case FileEntry(_) => return PathInfo(false, true, false, true);
        case RefEntry(_, _) => return PathInfo(false, true, false, true);
        case DirEntry => return PathInfo(true, false, false, true);
        case Deleted => return PathInfo(false, false, false, false);
      }
    }
    var parent := if p == [] then [] else Parent(p);
    var chain := RejectSymlinkChain(host, parent);
    ParentChain(host, p);
    if chain.Err? { return PathInfo(false, false, false, false); }
    var found := ClassifyTarget(host, p);
    match found {
      case Ok(RealSymlink) => info := PathInfo(false, false, true, false);
      case Ok(RealDir) => info := PathInfo(true, false, false, true);
      case Ok(RealFile) => info := PathInfo(false, true, false, true);
      case _ => info := PathInfo(false, false, false, false);
    }
  }

  /** The visible node, or why reading it fails. */
  method FindVisible(entries: Entries, host: Tree, p: Path) returns (r: Result<Node>)
    requires Inv(host, entries)
    ensures r == if Shadowed(host, entries, p) then Err(NotADirectory) else Find(View(host, entries), p)
    ensures r.Ok? ==> p in View(host, entries) && View(host, entries)[p] == r.value
  {
    hide Inv, View, LinkOn, ChainError;
    InvHost(host, entries);
    ViewAt(host, entries, p);
    if p in entries {
      match entries[p] {
        case FileEntry(content) => return Ok(File(content));
        case RefEntry(rel, _) =>
          RefShows(host, entries, p);
          NoLinkOnNode(host, rel);
          var chain := RejectSymlinkChain(host, rel);
          assert chain.Ok?;
          r := Metadata(host, rel);
          return;
        case DirEntry => return Ok(Dir);
        case Deleted =>
          TombstoneParents(host, entries, p);
          return Err(NotFound);
      }
    }
    var chain := RejectSymlinkChain(host, p);
    if chain.Err? {
      LinkOnPath(host, entries, p);
      return Err(PathEscape);
    }
    LinkOnImplies(host, p);
    r := Metadata(host, p);
    if r.Err? { AbsentParents(host, entries, p); }
  }

  /** Without a link on the way, a missing path's chain is never refused for one. */
  lemma AbsentParents(host: Tree, entries: Entries, p: Path)
    requires Inv(host, entries) && p !in entries && !LinkOn(host, p)
    ensures ParentError(View(host, entries), p) != Err(PathEscape)
  {
    if p != [] { AbsentChain(host, entries, p, Parent(p)); }
  }

  lemma {:induction false} AbsentChain(host: Tree, entries: Entries, p: Path, d: Path)
    requires Inv(host, entries) && !LinkOn(host, p) && d <= p
    ensures ChainError(View(host, entries), d) != Err(PathEscape)
  {
    if d != [] {
      AbsentChain(host, entries, p, Parent(d));
      ViewAt(host, entries, d);
      assert d in entries ==> EntryValid(host, entries[d]);
    }
  }

  /** A file's content, within the memory left beside what the overlay retains. */
  method ReadBytes(state: OverlayState, ctx: MountContext, p: Path) returns (r: Result<Bytes>)
    requires Valid(state, ctx)
    ensures r == if Shadowed(ctx.host, state.entries, p) then Err(NotADirectory)
                 else match Find(Merged(state, ctx), p)
                   case Err(e) => Err(e)
                   case Ok(File(content)) =>
                     if Usage(state.entries) + |content| <= ctx.memoryLimit then Ok(content) else Err(MemoryLimit)
                   case Ok(_) => Err(IsADirectory)
    ensures r.Ok? ==> p in Merged(state, ctx) && Merged(state, ctx)[p] == File(r.value)
  {
    hide Inv, View;
    var found := FindVisible(state.entries, ctx.host, p);
    if found.Err? { return Err(found.error); }
    match found.value {
      case File(content) =>
        var available := ctx.memoryLimit - state.memoryUsage;
        r := if |content| > available then Err(MemoryLimit) else Ok(content);
      case _ =>
        r := Err(IsADirectory);
    }
  }

  const I64_MAX: nat := 0x7FFF_FFFF_FFFF_FFFF

  datatype StatResult = StatFile(size: nat) | StatDir

  /** Kind and size; a reference answers from the size it was captured with. */
  method Stat(entries: Entries, host: Tree, p: Path) returns (r: Result<StatResult>)
    requires Inv(host, entries)
    ensures r == if Shadowed(host, entries, p) then Err(NotADirectory)
                 else match Find(View(host, entries), p)
                   case Err(e) => Err(e)
                   case Ok(File(content)) => Ok(StatFile(if |content| > I64_MAX then I64_MAX else |content|))
                   case Ok(_) => Ok(StatDir)
    ensures r.Ok? ==>
      p in View(host, entries) && match View(host, entries)[p]
        case File(content) => r.value == StatFile(if |content| > I64_MAX then I64_MAX else |content|)
        case Dir => r.value == StatDir
        case Link(_) => false
  {
    if p in entries && entries[p].RefEntry? {
      var size := entries[p].size;
      assert EntryValid(host, entries[p]);
      NoLinkOnNode(host, entries[p].relative);
      var chain := RejectSymlinkChain(host, entries[p].relative);
      assert chain.Ok?;
      ViewAt(host, entries, p);
      return Ok(StatFile(if size > I64_MAX then I64_MAX else size));
    }
    var found := FindVisible(entries, host, p);
    if found.Err? { return Err(found.error); }
    match found.value {
      case File(content) => r := Ok(StatFile(if |content| > I64_MAX then I64_MAX else |content|));
      case _ => r := Ok(StatDir);
    }
  }

  /** The check read modes make: a file must be there. */
  method OpenRead(entries: Entries, host: Tree, p: Path) returns (r: Result<()>)
    requires Inv(host, entries)
    ensures r == if Shadowed(host, entries, p) then Err(NotADirectory)
                 else match Find(View(host, entries), p)
                   case Err(e) => Err(e)
                   case Ok(File(_)) => Ok(())
                   case Ok(_) => Err(IsADirectory)
  {
    hide Inv, View;
    var found := FindVisible(entries, host, p);
    if found.Err? { return Err(found.error); }
    r := if found.value.File? then Ok(()) else Err(IsADirectory);
  }
}
