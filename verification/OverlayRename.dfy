/** The overlay's rename: validate, plan across both layers, check the whole plan, commit it. */
module OverlayRename {
  import opened Paths
  import opened PlainFs
  import opened OverlayView
  import opened OverlayStorage
  import opened HostWalk
  import opened OverlayOps
  import opened OverlayMkdir
  import opened OverlayRemove
  import opened RenamePlan
  import opened RenameCollect
  import opened Listings
  import opened Sums
  import opened Keys

  /** The overlay entries strictly below `src`. */
  ghost function Below(entries: Entries, src: Path): Entries
  {
    map k | k in entries && src < k :: entries[k]
  }

  /** What planning the move of one overlay entry is charged: its key twice and its new key. */
  function MoveCharge(src: Path, dst: Path, k: Path): nat
  {
    2 * |Key(k)| + |Key(dst)| + 1 + SatSub(|Key(k)|, |Key(src)| + 1) + ENTRY_MEMORY_USAGE
  }

  /** In bytes: the old key twice, the key it is moved to, and a fixed charge. */
  lemma MoveChargeMeans(src: Path, dst: Path, k: Path)
    requires src != [] && dst != [] && src < k
    ensures MoveCharge(src, dst, k) == 2 * |Key(k)| + |Key(Rebase(k, src, dst))| + ENTRY_MEMORY_USAGE
  {
    KeyBelow(src, k);
    var q := Rebase(k, src, dst);
    assert dst < q;
    KeyBelow(dst, q);
  }

  ghost function PlanUsage(entries: Entries, src: Path, dst: Path): nat
  {
    Sum(Below(entries, src), (k, e) => MoveCharge(src, dst, k))
  }

  /** Lists the overlay entries below `src`, charging each for its place in the plan. */
  method ListBelow(entries: Entries, src: Path, dst: Path) returns (usage: nat, list: seq<Captured>)
    ensures usage == Capped(PlanUsage(entries, src, dst))
    ensures Enumerates(list, Below(entries, src))
  {
    hide Enumerates;
    var rest := set k | k in entries && src < k;
    ghost var w := (k: Path, e: Entry) => MoveCharge(src, dst, k);
    ghost var seen: Entries := map[];
    usage, list := 0, [];
    EnumeratesNothing<Path, Entry>();
    while rest != {}
      invariant rest !! seen.Keys && Below(entries, src).Keys == rest + seen.Keys
      invariant forall k :: k in seen ==> seen[k] == entries[k]
      invariant usage == Capped(Sum(seen, w))
      invariant Enumerates(list, seen)
      decreases rest
    {
      var k :| k in rest;
      assert k in Below(entries, src);
      rest := rest - {k};
      SumUpdate(seen, w, k, entries[k]);
      EnumerateOne(list, seen, Item(k, entries[k]));
      usage := Capped(usage + MoveCharge(src, dst, k));
      list := list + [Item(k, entries[k])];
      seen := seen[k := entries[k]];
    }
    assert seen == Below(entries, src);
  }

  /** Whether planning a directory's move fits the memory left. */
  ghost predicate PlanFits(host: Tree, entries: Entries, src: Path, dst: Path, available: nat)
  {
    && PlanUsage(entries, src, dst) <= available
    && (Captures(host, entries, src) == map[]
        || PlanUsage(entries, src, dst) + CollectCharge(host, entries, src) <= available)
  }

  /** Everything a rename takes along besides the source itself. */
  ghost function Descendants(host: Tree, entries: Entries, src: Path): map<Path, Entry>
  {
    map p | p in entries.Keys + host.Keys && src < p :: CaptureAt(host, entries, p)
  }

  lemma BothLayers(host: Tree, entries: Entries, src: Path)
    requires !UnkeyedLink(host, entries, src)
    ensures Below(entries, src).Keys !! Captures(host, entries, src).Keys
    ensures Below(entries, src) + Captures(host, entries, src) == Descendants(host, entries, src)
  {
    var x, y := Below(entries, src) + Captures(host, entries, src), Descendants(host, entries, src);
    forall p ensures p in x <==> p in y {
      assert p in host && src < p && p !in entries ==> Unkeyed(host, entries, src, p);
    }
  }

  function Transfers(list: seq<Captured>, src: Path, dst: Path): (moves: seq<Transfer>)
    requires forall i :: 0 <= i < |list| ==> src <= list[i].key
    ensures |moves| == |list|
    ensures forall i :: 0 <= i < |list| ==>
      moves[i] == Transfer(list[i].key, Rebase(list[i].key, src, dst), list[i].value)
  {
    seq(|list|, i requires 0 <= i < |list| => Transfer(list[i].key, Rebase(list[i].key, src, dst), list[i].value))
  }

  lemma DescendantMoves(host: Tree, entries: Entries, src: Path, p: Path)
    requires Look(host, entries, src) == Some(Dir)
    ensures p in Descendants(host, entries, src) <==> src < p && Moved(host, entries, src, p)
    ensures p in Descendants(host, entries, src) ==>
      Descendants(host, entries, src)[p] == CaptureAt(host, entries, p)
  {
    hide CaptureAt, Look;
  }

  /** The source followed by its listed descendants is a plan. */
  lemma PlanAssembled(host: Tree, entries: Entries, src: Path, dst: Path, list: seq<Captured>)
    requires Look(host, entries, src) == Some(Dir)
    requires Enumerates(list, Descendants(host, entries, src))
    ensures forall i :: 0 <= i < |list| ==> src <= list[i].key
    ensures IsPlan(host, entries, src, dst,
                   [Transfer(src, dst, CaptureAt(host, entries, src))] + Transfers(list, src, dst))
  {
    hide CaptureAt, Look, Descendants, Moved, IsTransfer, Transfers, Rebase;
    forall i | 0 <= i < |list|
      ensures src < list[i].key
      ensures IsTransfer(host, entries, src, dst, Transfer(list[i].key, Rebase(list[i].key, src, dst), list[i].value))
    {
      ListedMoves(host, entries, src, dst, list, i);
    }
    var moves := Transfers(list, src, dst);
    var plan := [Transfer(src, dst, CaptureAt(host, entries, src))] + moves;
    MovesItself(host, entries, src, dst);
    forall p | Moved(host, entries, src, p) ensures exists i :: 0 <= i < |plan| && plan[i].from == p {
      MovedBelow(host, entries, src, p);
      if p == src {
        assert plan[0].from == p;
      } else {
        DescendantMoves(host, entries, src, p);
        var i :| 0 <= i < |list| && list[i].key == p;
        assert plan[1 + i] == moves[i];
      }
    }
  }

  lemma ListedMoves(host: Tree, entries: Entries, src: Path, dst: Path, list: seq<Captured>, i: nat)
    requires Look(host, entries, src) == Some(Dir)
    requires Enumerates(list, Descendants(host, entries, src)) && i < |list|
    ensures src < list[i].key
    ensures IsTransfer(host, entries, src, dst, Transfer(list[i].key, Rebase(list[i].key, src, dst), list[i].value))
  {
    hide CaptureAt, Look, Descendants, Moved, Rebase;
    DescendantMoves(host, entries, src, list[i].key);
  }

  lemma MovesItself(host: Tree, entries: Entries, src: Path, dst: Path)
    ensures IsTransfer(host, entries, src, dst, Transfer(src, dst, CaptureAt(host, entries, src)))
  {
    hide CaptureAt;
    assert src <= src && Rebase(src, src, dst) == dst;
  }

  lemma MovedBelow(host: Tree, entries: Entries, src: Path, p: Path)
    requires Moved(host, entries, src, p)
    ensures p == src || src < p
  {
  }

  /** Plans a directory's move: its own entry, the overlay's below it, then the host's. */
  method PlanDirectory(host: Tree, entries: Entries, src: Path, dst: Path, available: nat)
    returns (r: Result<seq<Transfer>>)
    requires Inv(host, entries) && Look(host, entries, src) == Some(Dir) && available < U64_MAX
    ensures r.Ok? ==> IsPlan(host, entries, src, dst, r.value) && !UnkeyedLink(host, entries, src)
    ensures r.Ok? ==> PlanFits(host, entries, src, dst, available)
    ensures r.Err? ==>
      || (r.error == PathEscape && UnkeyedLink(host, entries, src) && PlanUsage(entries, src, dst) <= available)
      || (r.error == MemoryLimit && !PlanFits(host, entries, src, dst, available))
  {
    hide Inv, WellFormed, ShadowClosed, UnkeyedLink, Enumerates, IsPlan, PlanUsage, Captures, LinkOn, CaptureAt, Below, Descendants;
    InvHost(host, entries);
    var usage, overlay := ListBelow(entries, src, dst);
    if usage > available { return Err(MemoryLimit); }
    var captured: seq<Captured> := [];
    SourceChainLinkFree(host, entries, src);
    var chain := RejectSymlinkChain(host, src);
    if chain.Ok? && HostIsDir(host, src) {
      var collected := CollectRealDescendants(host, entries, src, available - usage) by { InvShadow(host, entries); }
      if collected.Err? { return Err(collected.error); }
      captured := collected.value;
      EmptyList(captured, Captures(host, entries, src));
    } else {
      NothingToCapture(host, entries, src);
      EnumeratesNothing<Path, Entry>();
    }
    var own := if src in entries then entries[src] else DirEntry;
    OwnEntry(host, entries, src);
    BothLayers(host, entries, src);
    EnumerateBoth(overlay, Below(entries, src), captured, Captures(host, entries, src));
    PlanAssembled(host, entries, src, dst, overlay + captured);
    r := Ok([Transfer(src, dst, own)] + Transfers(overlay + captured, src, dst));
  }

  lemma OwnEntry(host: Tree, entries: Entries, src: Path)
    requires Look(host, entries, src) == Some(Dir)
    ensures CaptureAt(host, entries, src) == if src in entries then entries[src] else DirEntry
  {
  }

  lemma InvShadow(host: Tree, entries: Entries)
    requires Inv(host, entries)
    ensures ShadowClosed(host, entries)
  {
  }

  lemma SourceChainLinkFree(host: Tree, entries: Entries, src: Path)
    requires Inv(host, entries) && Look(host, entries, src) == Some(Dir)
    ensures !LinkOn(host, src)
  {
    if src !in entries { NoLinkOnNode(host, src); }
  }

  lemma NothingToCapture(host: Tree, entries: Entries, src: Path)
    requires WellFormed(host) && !(src in host && host[src].Dir?)
    ensures Captures(host, entries, src) == map[] && !UnkeyedLink(host, entries, src)
  {
    FileIsEmpty(host, src);
    assert forall h :: !Unkeyed(host, entries, src, h);
  }

  /** Takes the moved overlay entries out of the map. */
  method TakeOut(state: OverlayState, plan: seq<Transfer>)
    requires state.Accounted()
    modifies state
    ensures state.Accounted() && Usage(state.entries) <= Usage(old(state.entries))
    ensures Apply(state.entries, Flatten(plan)) == Apply(old(state.entries), Flatten(plan))
  {
    hide Apply, Flatten, Usage;
    ghost var start, reps := state.entries, Flatten(plan);
    for i := 0 to |plan|
      invariant state.Accounted()
      invariant forall k :: k in state.entries ==> k in start && state.entries[k] == start[k]
      invariant forall k :: k in start && k !in state.entries ==> Writes(reps, k)
    {
      assert reps[2 * i].path == plan[i].from;
      var removed := state.Remove(plan[i].from);
    }
    ApplyForgets(state.entries, start, reps);
    UsageMonotone(state.entries, start);
  }

  lemma UsageMonotone(a: Entries, b: Entries)
    requires forall k :: k in a ==> k in b && a[k] == b[k]
    ensures Usage(a) <= Usage(b)
  {
    SumMonotone(a, b, EntryUsage);
  }

  /** Takes the moved overlay entries out, then writes tombstones and moved entries in plan order. */
  method CommitPlan(state: OverlayState, plan: seq<Transfer>)
    requires state.Accounted() && OverwritesTombstones(Flatten(plan))
    requires Usage(Apply(state.entries, Flatten(plan))) + Usage(state.entries) <= U64_MAX
    modifies state
    ensures state.Accounted() && state.entries == Apply(old(state.entries), Flatten(plan))
  {
    hide Apply, Flatten, Usage, OverwritesTombstones;
    TakeOut(state, plan);
    ghost var base, reps := state.entries, Flatten(plan);
    ApplyNothing(base, reps);
    for i := 0 to |plan|
      invariant state.Accounted() && state.entries == Apply(base, reps[..2 * i])
    {
      ApplyOne(base, reps, 2 * i);
      ApplyOne(base, reps, 2 * i + 1);
      ApplyPeak(base, reps, 2 * i + 1);
      ApplyPeak(base, reps, 2 * i + 2);
      state.InsertUnchecked(plan[i].from, Deleted);
      state.InsertUnchecked(plan[i].to, plan[i].entry);
    }
    assert reps[..2 * |plan|] == reps;
  }

  /**
   * Why a rename is refused before anything is planned.  A source nothing
   * shows is not found, except that without a tombstone a directory at the
   * destination is reported first and a host file above the source last.
   */
  ghost function Refusal(host: Tree, entries: Entries, src: Path, dst: Path): Option<Error>
  {
    var t := View(host, entries);
    if src == [] || dst == [] then Some(PathEscape)
    else if ParentError(t, dst).Err? then Some(ParentError(t, dst).error)
    else if dst in t && t[dst].Link? then Some(PathEscape)
    else if ParentError(t, src).Err? then Some(ParentError(t, src).error)
    else if src !in t then
      if src in entries then Some(NotFound)
      else if dst in t && t[dst].Dir? then Some(IsADirectory)
      else if Shadowed(host, entries, src) then Some(NotADirectory)
      else Some(NotFound)
    else match t[src]
      case Link(_) => Some(PathEscape)
      case File(_) => if dst in t && t[dst].Dir? then Some(IsADirectory) else None
      case Dir =>
        if dst in t && t[dst].File? then Some(NotADirectory)
        else if dst in t && !Empty(t, dst) then Some(DirectoryNotEmpty)
        else if src < dst then Some(InvalidArgument)
        else None
  }

  /** The plain filesystem refuses whatever is refused here, and for the same reason when the source exists. */
  lemma RefusalIsPlain(host: Tree, entries: Entries, src: Path, dst: Path)
    ensures Refusal(host, entries, src, dst).Some? ==> PlainFs.Rename(View(host, entries), src, dst).Err?
    ensures Refusal(host, entries, src, dst).Some? && src in View(host, entries) ==>
      PlainFs.Rename(View(host, entries), src, dst) == Err(Refusal(host, entries, src, dst).value)
  {
    hide View;
  }

  /**
   * The reasons differ exactly for a source that shows nothing and has no
   * tombstone, both ends being placed below directories, where the destination
   * is a directory or the source's lookup runs into a host file.
   */
  lemma RefusalDiffers(host: Tree, entries: Entries, src: Path, dst: Path)
    ensures
      var t := View(host, entries);
      var refusal := Refusal(host, entries, src, dst);
      (refusal.Some? && PlainFs.Rename(t, src, dst) != Err(refusal.value)) <==>
      && src != [] && dst != [] && ParentError(t, src).Ok? && ParentError(t, dst).Ok? && src !in t && src !in entries
      && ((dst in t && t[dst].Dir?) || (Shadowed(host, entries, src) && !(dst in t && t[dst].Link?)))
  {
    hide View, Shadowed, ChainError;
  }

  /** What is visible at a rename's end, without resolving a link. */
  method EndKind(entries: Entries, host: Tree, p: Path) returns (kind: Option<RealTarget>)
    requires WellFormed(host) && EntriesValid(host, entries) && (p !in entries ==> !LinkOn(host, p))
    ensures kind == match Look(host, entries, p)
                    case Some(Dir) => Some(RealDir)
                    case Some(File(_)) => Some(RealFile)
                    case _ => None
  {
    if p in entries {
      assert EntryValid(host, entries[p]);
      match entries[p] {
        case DirEntry => kind := Some(RealDir);
        case FileEntry(_) => kind := Some(RealFile);
        case RefEntry(_, _) => kind := Some(RealFile);
        case Deleted => kind := None;
      }
    } else {
      LinkOnImplies(host, p);
      kind := if HostIsDir(host, p) then Some(RealDir) else if HostExists(host, p) then Some(RealFile) else None;
    }
  }

  /** Whether a visible directory at `p` has anything below it, as both layers' checks find. */
  method HasChildren(entries: Entries, host: Tree, p: Path) returns (nonempty: bool)
    requires Inv(host, entries) && Look(host, entries, p) == Some(Dir)
    ensures nonempty <==> !Empty(View(host, entries), p)
  {
    hide Inv, View, LinkOn, OverlayHasChildren, RealHasVisibleChildren, Empty;
    SourceChainLinkFree(host, entries, p);
    if OverlayHasChildren(entries, p) {
      if p in entries { OverlaidEmpty(host, entries, p); } else { UnkeyedEmpty(host, entries, p); }
      return true;
    }
    if p in entries {
      OverlaidEmpty(host, entries, p);
      HiddenChildren(host, entries, p);
    } else {
      UnkeyedEmpty(host, entries, p);
    }
    nonempty := HostIsDir(host, p) && RealHasVisibleChildren(host, entries, p);
  }

  /** Below an overlaid directory with no visible entries, every host child is a tombstone. */
  lemma HiddenChildren(host: Tree, entries: Entries, p: Path)
    requires Inv(host, entries) && p in entries && !OverlayHasChildren(entries, p)
    ensures !RealHasVisibleChildren(host, entries, p)
  {
  }

  /** Checks a rename's two ends; answers whether the source is a directory. */
  method CheckEnds(entries: Entries, host: Tree, src: Path, dst: Path) returns (r: Result<bool>)
    requires Inv(host, entries)
    ensures match Refusal(host, entries, src, dst)
            case Some(e) => r == Err(e)
            case None => r == Ok(Look(host, entries, src) == Some(Dir))
  {
    hide Inv, View, LinkOn, ChainError, Empty, WellFormed;
    InvHost(host, entries);
    InvEntries(host, entries);
    if src == [] || dst == [] { return Err(PathEscape); }
    var parents := EnsureParentExists(entries, host, dst);
    if parents.Err? { return Err(parents.error); }
    ViewAt(host, entries, dst);
    ViewAt(host, entries, src);
    if dst !in entries {
      var chain := RejectSymlinkChain(host, dst);
      if chain.Err? {
        LinkOnPath(host, entries, dst);
        return Err(chain.error);
      }
      LinkOnImplies(host, dst);
    }
    parents := EnsureParentExists(entries, host, src);
    if parents.Err? { return Err(parents.error); }
    if src in entries && entries[src].Deleted? { return Err(NotFound); }
    if src !in entries {
      var chain := RejectSymlinkChain(host, src);
      if chain.Err? {
        LinkOnPath(host, entries, src);
        return Err(chain.error);
      }
      LinkOnImplies(host, src);
    }
    var srcKind := EndKind(entries, host, src);
    var dstKind := EndKind(entries, host, dst);
    var srcIsDir := srcKind == Some(RealDir);
    if dstKind == Some(RealDir) && !srcIsDir { return Err(IsADirectory); }
    if dstKind == Some(RealFile) && srcIsDir { return Err(NotADirectory); }
    if srcIsDir && dstKind == Some(RealDir) {
      var nonempty := HasChildren(entries, host, dst);
      if nonempty { return Err(DirectoryNotEmpty); }
    }
    if srcIsDir && src < dst { return Err(InvalidArgument); }
    if src !in entries {
      var found := ClassifyTarget(host, src);
      if found.Err? { return Err(found.error); }
      if found.value == RealAbsent { return Err(NotFound); }
    }
    return Ok(srcIsDir);
  }

  /** Whether a rename fits the memory budget: its plan while it is made, its result once committed. */
  ghost predicate RenameFits(host: Tree, entries: Entries, limit: nat, src: Path, dst: Path)
    requires Usage(entries) <= limit
  {
    && (Look(host, entries, src) == Some(Dir) ==> PlanFits(host, entries, src, dst, limit - Usage(entries)))
    && Usage(Renamed(host, entries, src, dst)) <= limit
  }

  /** A link below a visible directory is always one the overlay does not hold. */
  lemma LinksUnkeyed(host: Tree, entries: Entries, src: Path)
    requires Inv(host, entries)
    ensures LinkBelow(View(host, entries), src) <==> UnkeyedLink(host, entries, src)
  {
    var t := View(host, entries);
    if LinkBelow(t, src) {
      var p :| p in t && src < p && t[p].Link?;
      ViewAt(host, entries, p);
      assert Unkeyed(host, entries, src, p);
    }
    if UnkeyedLink(host, entries, src) {
      var h :| Unkeyed(host, entries, src, h) && host[h].Link?;
      ViewAt(host, entries, h);
      assert h in t;
    }
  }

  /** A rename that is not refused goes outside its own subtree, onto nothing visible. */
  lemma AcceptedMoves(host: Tree, entries: Entries, src: Path, dst: Path)
    requires Inv(host, entries) && Refusal(host, entries, src, dst) == None
    requires !LinkBelow(View(host, entries), src)
    ensures Renamable(host, entries, src, dst) && Apart(src, dst)
    ensures PlainFs.Rename(View(host, entries), src, dst) == Ok(Move(View(host, entries), src, dst))
  {
    hide View, Move;
    InvHost(host, entries);
    var t := View(host, entries);
    if !(dst in t && t[dst].Dir?) { FileIsEmpty(t, dst); }
    if src < dst { DirsAbove(t, dst, src); }
    assert dst <= src ==> dst == src || dst < src;
    assert src <= dst ==> dst == src || src < dst;
  }

  /** Only a directory can have a link below it. */
  lemma LinkBelowDirectory(host: Tree, entries: Entries, src: Path)
    requires Inv(host, entries) && Look(host, entries, src) != Some(Dir)
    ensures !LinkBelow(View(host, entries), src)
  {
    ViewAt(host, entries, src);
    FileIsEmpty(View(host, entries), src);
  }

  /** A file's plan is its own transfer. */
  lemma FilePlan(host: Tree, entries: Entries, src: Path, dst: Path)
    requires Inv(host, entries) && src in View(host, entries) && View(host, entries)[src].File?
    ensures IsPlan(host, entries, src, dst, [Transfer(src, dst, CaptureAt(host, entries, src))])
    ensures src !in entries ==> src in host && host[src].File?
    ensures CaptureAt(host, entries, src) == if src in entries then entries[src] else CaptureOf(host, src)
  {
    ViewAt(host, entries, src);
    var plan := [Transfer(src, dst, CaptureAt(host, entries, src))];
    assert src <= src && Rebase(src, src, dst) == dst;
    assert plan[0].from == src;
  }

  /** The transfers of an accepted rename, or the budget or link that stops it. */
  method PlanRename(entries: Entries, host: Tree, src: Path, dst: Path, srcIsDir: bool, available: nat)
    returns (r: Result<seq<Transfer>>)
    requires Inv(host, entries) && Refusal(host, entries, src, dst) == None && available < U64_MAX
    requires srcIsDir == (Look(host, entries, src) == Some(Dir))
    ensures r.Ok? ==> IsPlan(host, entries, src, dst, r.value) && !LinkBelow(View(host, entries), src)
    ensures r.Ok? && srcIsDir ==> PlanFits(host, entries, src, dst, available)
    ensures r.Err? ==> srcIsDir
    ensures r.Err? ==>
      || (r.error == PathEscape && LinkBelow(View(host, entries), src) && PlanUsage(entries, src, dst) <= available)
      || (r.error == MemoryLimit && !PlanFits(host, entries, src, dst, available))
  {
    hide Inv, View, IsPlan, PlanFits, PlanUsage, LinkBelow, UnkeyedLink, CaptureAt, ChainError, Empty;
    ViewAt(host, entries, src);
    if srcIsDir {
      r := PlanDirectory(host, entries, src, dst, available);
      LinksUnkeyed(host, entries, src);
    } else {
      FilePlan(host, entries, src, dst);
      LinkBelowDirectory(host, entries, src);
      var own := if src in entries then entries[src] else CaptureOf(host, src);
      r := Ok([Transfer(src, dst, own)]);
    }
  }

  /** Moves a file or a whole directory within the overlay. */
  method Rename(state: OverlayState, ctx: MountContext, src: Path, dst: Path) returns (r: Result<()>)
    requires Valid(state, ctx)
    modifies state
    ensures Valid(state, ctx)
    ensures r.Err? ==> unchanged(state)
    ensures r.Ok? ==> state.entries == Renamed(ctx.host, old(state.entries), src, dst)
    ensures r.Ok? ==> PlainFs.Rename(old(Merged(state, ctx)), src, dst) == Ok(Merged(state, ctx))
    ensures r.Ok? ==> Merged(state, ctx) == Move(old(Merged(state, ctx)), src, dst)
    ensures
      var t, entries := old(Merged(state, ctx)), old(state.entries);
      match Refusal(ctx.host, entries, src, dst)
      case Some(e) => r == Err(e)
      case None =>
        if LinkBelow(t, src) then
          || (r == Err(PathEscape) && PlanUsage(entries, src, dst) <= ctx.memoryLimit - Usage(entries))
          || (r == Err(MemoryLimit) && !PlanFits(ctx.host, entries, src, dst, ctx.memoryLimit - Usage(entries)))
        else r == if RenameFits(ctx.host, entries, ctx.memoryLimit, src, dst) then Ok(()) else Err(MemoryLimit)
  {
    hide Inv, View, IsPlan, PlanFits, PlanUsage, LinkBelow, Refusal, Renamed, Move, Flatten, Apply, OverwritesTombstones, Renamable;
    ghost var entries := state.entries;
    var ends := CheckEnds(state.entries, ctx.host, src, dst);
    if ends.Err? { return Err(ends.error); }
    var planned := PlanRename(state.entries, ctx.host, src, dst, ends.value, ctx.memoryLimit - state.memoryUsage);
    if planned.Err? { return Err(planned.error); }
    AcceptedMoves(ctx.host, entries, src, dst);
    PlanApplied(ctx.host, entries, src, dst, planned.value);
    PlanOverwrites(ctx.host, entries, src, dst, planned.value);
    var checked := state.CheckReplacements(Flatten(planned.value), ctx.memoryLimit);
    if checked.Err? { return checked; }
    CommitPlan(state, planned.value);
    RenameMoves(ctx.host, entries, src, dst);
    RenameKeepsInv(ctx.host, entries, src, dst);
    RenameHoldsBytes(ctx.host, entries, src, dst, planned.value);
    return Ok(());
  }
}
