/** Removal in the overlay: a tombstone over a file or an empty directory. */
module OverlayRemove {
  import opened Paths
  import opened PlainFs
  import opened OverlayView
  import opened OverlayStorage
  import opened HostWalk
  import opened OverlayOps
  import opened Sums

  /** Whether any overlay entry below `p` shows something. */
  predicate OverlayHasChildren(entries: Entries, p: Path)
  {
    exists k | k in entries :: p < k && !entries[k].Deleted?
  }

  /** Whether the host directory at `p` has a child that no tombstone hides. */
  predicate RealHasVisibleChildren(host: Tree, entries: Entries, p: Path)
  {
    exists h | h in host :: |h| == |p| + 1 && p < h && !(h in entries && entries[h].Deleted?)
  }

  lemma EntryShows(host: Tree, entries: Entries, k: Path)
    requires EntriesValid(host, entries) && k in entries && !entries[k].Deleted?
    ensures k in View(host, entries)
  {
    assert EntryValid(host, entries[k]);
  }

  /** Looking at the overlay alone settles whether an overlaid directory is empty in both layers. */
  lemma OverlaidEmpty(host: Tree, entries: Entries, p: Path)
    requires Inv(host, entries) && p in entries
    ensures Empty(View(host, entries), p) <==> !OverlayHasChildren(entries, p)
  {
    var t := View(host, entries);
    if OverlayHasChildren(entries, p) {
      var k :| k in entries && p < k && !entries[k].Deleted?;
      EntryShows(host, entries, k);
    } else {
      forall q | q in t ensures !(p < q) {
        ViewAt(host, entries, q);
      }
    }
  }

  /** Direct children and overlay entries settle it for a host directory the overlay does not hold. */
  lemma UnkeyedEmpty(host: Tree, entries: Entries, p: Path)
    requires Inv(host, entries) && p !in entries
    ensures Empty(View(host, entries), p) <==>
            !RealHasVisibleChildren(host, entries, p) && !OverlayHasChildren(entries, p)
  {
    var t := View(host, entries);
    if OverlayHasChildren(entries, p) {
      var k :| k in entries && p < k && !entries[k].Deleted?;
      EntryShows(host, entries, k);
    } else if RealHasVisibleChildren(host, entries, p) {
      var h :| h in host && |h| == |p| + 1 && p < h && !(h in entries && entries[h].Deleted?);
      if h in entries { EntryShows(host, entries, h); }
      ViewAt(host, entries, h);
      assert h in t;
    } else {
      forall q | q in t ensures !(p < q) {
        ViewAt(host, entries, q);
        if p < q { UnhiddenChild(host, entries, p, q); }
      }
    }
  }

  lemma UnhiddenChild(host: Tree, entries: Entries, p: Path, q: Path)
    requires WellFormed(host) && ShadowClosed(host, entries)
    requires p < q && q in host && q !in entries
    ensures RealHasVisibleChildren(host, entries, p)
  {
    var c := q[..|p| + 1];
    assert c == q || c < q;
    assert p < c && c in host && c !in entries;
  }

  /** A tombstone put over something visible with nothing below it. */
  method InsertTombstone(state: OverlayState, ctx: MountContext, p: Path) returns (r: Result<()>)
    requires Valid(state, ctx) && p != [] && p in Merged(state, ctx) && !Merged(state, ctx)[p].Link?
    requires Empty(Merged(state, ctx), p)
    modifies state
    ensures Valid(state, ctx)
    ensures r == if Usage(old(state.entries)[p := Deleted]) <= ctx.memoryLimit then Ok(()) else Err(MemoryLimit)
    ensures r.Err? ==> unchanged(state)
    ensures r.Ok? ==> state.entries == old(state.entries)[p := Deleted]
    ensures r.Ok? ==> Merged(state, ctx) == old(Merged(state, ctx)) - {p}
  {
    hide Inv, View;
    ghost var entries := state.entries;
    NodeParents(ctx.host, entries, p);
    PutView(ctx.host, entries, p, Deleted);
    r := state.Insert(p, Deleted, ctx.memoryLimit);
    SumUpdate(entries, FileLength, p, Deleted);
    if r.Ok? { PutKeepsValid(state, ctx, entries, p, Deleted); }
  }

  /** The answer to a removal, given the plain filesystem's. */
  ghost function RemoveAnswer(plain: Result<Tree>, entries: Entries, p: Path, limit: nat): Result<()>
  {
    if plain.Err? then Err(plain.error)
    else if Usage(entries[p := Deleted]) > limit then Err(MemoryLimit)
    else Ok(())
  }

  method Unlink(state: OverlayState, ctx: MountContext, p: Path) returns (r: Result<()>)
    requires Valid(state, ctx)
    modifies state
    ensures Valid(state, ctx)
    ensures
      var t, entries := old(Merged(state, ctx)), old(state.entries);
      r == if ParentError(t, p).Ok? && Shadowed(ctx.host, entries, p) then Err(NotADirectory)
           else RemoveAnswer(PlainFs.Unlink(t, p), entries, p, ctx.memoryLimit)
    ensures r.Err? ==> unchanged(state)
    ensures r.Ok? ==> state.entries == old(state.entries)[p := Deleted]
    ensures r.Ok? ==> Merged(state, ctx) == PlainFs.Unlink(old(Merged(state, ctx)), p).value
  {
    hide Inv, View, ChainError, LinkOn;
    InvHost(ctx.host, state.entries);
    ghost var t := Merged(state, ctx);
    ViewAt(ctx.host, state.entries, p);
    if p in t { NodeParents(ctx.host, state.entries, p); }
    if p in state.entries {
      match state.entries[p] {
        case FileEntry(_) =>
          FileIsEmpty(t, p);
          r := InsertTombstone(state, ctx, p);
        case RefEntry(_, _) =>
          RefShows(ctx.host, state.entries, p);
          FileIsEmpty(t, p);
          r := InsertTombstone(state, ctx, p);
        case DirEntry =>
          r := Err(IsADirectory);
        case Deleted =>
          r := Err(NotFound);
          TombstoneParents(ctx.host, state.entries, p);
      }
      return;
    }
    r := EnsureParentExists(state.entries, ctx.host, p);
    if r.Err? { return; }
    var chain := RejectSymlinkChain(ctx.host, p);
    if chain.Err? {
      LinkOnPath(ctx.host, state.entries, p);
      return chain;
    }
    LinkOnImplies(ctx.host, p);
    var found := ClassifyTarget(ctx.host, p);
    if found.Err? { return Err(found.error); }
    match found.value {
      case RealFile =>
        FileIsEmpty(t, p);
        r := InsertTombstone(state, ctx, p);
      case RealDir => r := Err(IsADirectory);
      case RealSymlink => r := Err(PathEscape);
      case RealAbsent => r := Err(NotFound);
    }
  }

  /** Above a tombstone there is no link, so a missing chain reads as not found. */
  lemma TombstoneParents(host: Tree, entries: Entries, p: Path)
    requires Inv(host, entries) && p in entries
    ensures ParentError(View(host, entries), p) in {Ok(()), Err(NotFound)}
  {
    NoLinkChain(host, entries, Parent(p));
  }

  lemma {:induction false} NoLinkChain(host: Tree, entries: Entries, d: Path)
    requires Inv(host, entries)
    requires exists k :: k in entries && d <= k
    ensures ChainError(View(host, entries), d) in {Ok(()), Err(NotFound)}
  {
    var k :| k in entries && d <= k;
    if d != [] {
      assert Parent(d) <= k;
      NoLinkChain(host, entries, Parent(d));
      ViewAt(host, entries, d);
      assert d in entries ==> EntryValid(host, entries[d]);
    }
  }

  method Rmdir(state: OverlayState, ctx: MountContext, p: Path) returns (r: Result<()>)
    requires Valid(state, ctx)
    modifies state
    ensures Valid(state, ctx)
    ensures r == RemoveAnswer(PlainFs.Rmdir(old(Merged(state, ctx)), p), old(state.entries), p, ctx.memoryLimit)
    ensures r.Err? ==> unchanged(state)
    ensures r.Ok? ==> state.entries == old(state.entries)[p := Deleted]
    ensures r.Ok? ==> Merged(state, ctx) == PlainFs.Rmdir(old(Merged(state, ctx)), p).value
  {
    hide Inv, View, ChainError, LinkOn, OverlayHasChildren, RealHasVisibleChildren, Empty;
    if p == [] { return Err(PathEscape); }
    InvHost(ctx.host, state.entries);
    ghost var t := Merged(state, ctx);
    ViewAt(ctx.host, state.entries, p);
    if p in t { NodeParents(ctx.host, state.entries, p); }
    if p in state.entries {
      OverlaidEmpty(ctx.host, state.entries, p);
      match state.entries[p] {
        case DirEntry =>
          if OverlayHasChildren(state.entries, p) { return Err(DirectoryNotEmpty); }
          r := InsertTombstone(state, ctx, p);
        case FileEntry(_) =>
          r := Err(NotADirectory);
        case RefEntry(_, _) =>
          RefShows(ctx.host, state.entries, p);
          r := Err(NotADirectory);
        case Deleted =>
          r := Err(NotFound);
          TombstoneParents(ctx.host, state.entries, p);
      }
      return;
    }
    r := EnsureParentExists(state.entries, ctx.host, p);
    if r.Err? { return; }
    var chain := RejectSymlinkChain(ctx.host, p);
    if chain.Err? {
      LinkOnPath(ctx.host, state.entries, p);
      return chain;
    }
    LinkOnImplies(ctx.host, p);
    if !HostIsDir(ctx.host, p) {
      return if HostExists(ctx.host, p) then Err(NotADirectory) else Err(NotFound);
    }
    UnkeyedEmpty(ctx.host, state.entries, p);
    if RealHasVisibleChildren(ctx.host, state.entries, p) { return Err(DirectoryNotEmpty); }
    if OverlayHasChildren(state.entries, p) { return Err(DirectoryNotEmpty); }
    r := InsertTombstone(state, ctx, p);
  }
}
