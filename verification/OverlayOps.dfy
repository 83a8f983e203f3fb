/** The overlay's single-path operations, each proved to act on the merged view as the plain filesystem does. */
module OverlayOps {
  import opened Paths
  import opened PlainFs
  import opened OverlayView
  import opened OverlayStorage
  import opened HostWalk
  import opened Listings
  import opened Sums

  /** Bytes charged against the write quota for each directory made. */
  const DIRECTORY_WRITE_BYTES: nat := 4096

  /** The mount an operation runs against: its host tree, its limits and its write counter. */
  class MountContext {
    const host: Tree
    const writeLimit: Option<nat>
    const memoryLimit: nat
    var writeUsed: nat

    constructor (host: Tree, writeLimit: Option<nat>, memoryLimit: nat)
      ensures this.host == host && this.writeLimit == writeLimit && this.memoryLimit == memoryLimit
      ensures writeUsed == 0
    {
      this.host, this.writeLimit, this.memoryLimit := host, writeLimit, memoryLimit;
      writeUsed := 0;
    }

    predicate WithinQuota(bytes: nat)
      reads this
    {
      writeLimit.Some? ==> SatAdd(writeUsed, bytes) <= writeLimit.value
    }

    method CheckWriteLimit(bytes: nat) returns (r: Result<()>)
      ensures r == if WithinQuota(bytes) then Ok(()) else Err(WriteLimit)
    {
      r := if WithinQuota(bytes) then Ok(()) else Err(WriteLimit);
    }

    method CommitWriteBytes(bytes: nat)
      modifies this
      ensures writeUsed == if writeLimit.Some? then SatAdd(old(writeUsed), bytes) else old(writeUsed)
    {
      if writeLimit.Some? {
        writeUsed := SatAdd(writeUsed, bytes);
      }
    }
  }

  /** With a write limit, the content held in memory never exceeds what has been charged, nor that the limit. */
  ghost predicate QuotaHolds(ctx: MountContext, entries: Entries)
    reads ctx
  {
    ctx.writeLimit.Some? ==> FileBytes(entries) <= ctx.writeUsed <= ctx.writeLimit.value < U64_MAX
  }

  /** What every operation keeps. */
  ghost predicate Valid(state: OverlayState, ctx: MountContext)
    reads state, ctx
  {
    && Inv(ctx.host, state.entries)
    && state.Accounted() && state.memoryUsage <= ctx.memoryLimit < HALF_U64
    && QuotaHolds(ctx, state.entries)
  }

  ghost function Merged(state: OverlayState, ctx: MountContext): Tree
    reads state
  {
    View(ctx.host, state.entries)
  }

  /** Walks the parent chain through both layers. */
  method EnsureParentExists(entries: Entries, host: Tree, p: Path) returns (r: Result<()>)
    requires WellFormed(host)
    ensures r == ParentError(View(host, entries), p)
  {
    if p == [] {
      return Ok(());
    }
    var parents := Parent(p);
    var walk := new ComponentWalk(host);
    for i := 0 to |parents|
      invariant walk.Valid() && walk.host == host && walk.walked == parents[..i]
      invariant ChainError(View(host, entries), parents[..i]).Ok?
    {
      var found := walk.Step(parents[i]);
      var current := parents[..i + 1];
      assert current == parents[..i] + [parents[i]];
      var step := Enterable(entries, current, found);
      ChainStep(host, entries, parents, i);
      if step.Err? {
        return step;
      }
    }
    assert parents[..|parents|] == parents;
    return Ok(());
  }

  /** Whether one component may be entered, from its overlay entry and what the host has there. */
  function Enterable(entries: Entries, current: Path, found: RealTarget): Result<()>
  {
    if current in entries then
      if entries[current].DirEntry? then Ok(()) else Err(NotFound)
    else match found
      case RealDir => Ok(())
      case RealSymlink => Err(PathEscape)
      case RealFile => Err(NotFound)
      case RealAbsent => Err(NotFound)
  }

  lemma ChainStep(host: Tree, entries: Entries, d: Path, i: nat)
    requires i < |d| && ChainError(View(host, entries), d[..i]).Ok?
    ensures
      var step := Enterable(entries, d[..i + 1], KindAt(host, d[..i + 1]));
      && ChainError(View(host, entries), d[..i + 1]) == step
      && (step.Err? ==> ChainError(View(host, entries), d) == step)
  {
    hide View;
    var t, current := View(host, entries), d[..i + 1];
    assert Parent(current) == d[..i];
    ViewAt(host, entries, current);
    EnterStep(host, entries, current);
    if ChainError(t, current).Err? {
      ChainFails(t, d, i + 1);
    }
  }

  /** Below an entered chain, one more component is entered by what it shows. */
  lemma EnterStep(host: Tree, entries: Entries, current: Path)
    requires current != [] && ChainError(View(host, entries), Parent(current)).Ok?
    ensures ChainError(View(host, entries), current) == Enterable(entries, current, KindAt(host, current))
  {
    hide View;
    ViewAt(host, entries, current);
  }

  /** A chain fails as its shortest failing prefix does. */
  lemma {:induction false} ChainFails(t: Tree, d: Path, n: nat)
    requires n <= |d| && ChainError(t, d[..n]).Err?
    ensures ChainError(t, d) == ChainError(t, d[..n])
  {
    if n < |d| {
      assert Parent(d)[..n] == d[..n];
      ChainFails(t, Parent(d), n);
    } else {
      assert d[..n] == d;
    }
  }

  lemma NoLinkAbove(host: Tree, entries: Entries, p: Path)
    requires Inv(host, entries) && ParentError(View(host, entries), p).Ok?
    ensures !LinkAbove(host, p)
  {
    var t := View(host, entries);
    forall h | h in host && h < p ensures !host[h].Link? {
      DirsAbove(t, p, h);
      assert h <= h;
      assert h !in entries ==> t[h] == host[h];
    }
  }

  lemma LinkAtEnd(host: Tree, p: Path)
    requires LinkOn(host, p) && !LinkAbove(host, p)
    ensures p in host && host[p].Link?
  {
    var h :| h in host && h <= p && host[h].Link?;
    assert h == p || h < p;
  }

  /**
   * A name the overlay holds no entry for whose host lookup runs into a plain
   * file.  Below an overlay directory that replaced a host file such a name is
   * free, yet its lookup fails.
   */
  ghost predicate Shadowed(host: Tree, entries: Entries, p: Path)
  {
    p !in entries && FileAbove(host, p)
  }

  lemma ShadowedIsAbsent(host: Tree, entries: Entries, p: Path)
    requires Inv(host, entries) && Shadowed(host, entries, p)
    ensures p !in View(host, entries)
  {
    var i :| 0 <= i < |p| && p[..i] in host && host[p[..i]].File?;
    assert p[..i] < p;
  }

  /** Rejects a write target that is a directory or a link. */
  method RejectDirectoryTarget(entries: Entries, host: Tree, p: Path) returns (r: Result<()>)
    requires Inv(host, entries) && ParentError(View(host, entries), p).Ok?
    ensures r == if Shadowed(host, entries, p) then Err(NotADirectory)
                 else match Look(host, entries, p)
                   case Some(Dir) => Err(IsADirectory)
                   case Some(Link(_)) => Err(PathEscape)
                   case _ => Ok(())
  {
    if p in entries {
      return if entries[p].DirEntry? then Err(IsADirectory) else Ok(());
    }
    var chain := RejectSymlinkChain(host, p);
    NoLinkAbove(host, entries, p);
    if Shadowed(host, entries, p) { ShadowedIsAbsent(host, entries, p); }
    if chain.Err? {
      LinkAtEnd(host, p);
      return chain;
    }
    var found := ClassifyTarget(host, p);
    match found {
      case Err(e) => return Err(e);
      case Ok(RealDir) => return Err(IsADirectory);
      case Ok(RealSymlink) => return Err(PathEscape);
      case Ok(_) => return Ok(());
    }
  }

  /** The answer to a request that puts one entry at `p`, given the plain filesystem's. */
  ghost function PutAnswer(plain: Result<Tree>, shadowed: bool, fits: bool): Result<()>
  {
    if plain.Err? then Err(plain.error)
    else if shadowed then Err(NotADirectory)
    else if !fits then Err(MemoryLimit)
    else Ok(())
  }

  /** Putting one entry keeps everything, given room in both budgets. */
  lemma PutKeepsValid(state: OverlayState, ctx: MountContext, entries: Entries, p: Path, e: Entry)
    requires Inv(ctx.host, entries) && Writable(View(ctx.host, entries), p) && EntryValid(ctx.host, e)
    requires state.entries == entries[p := e] && state.Accounted() && state.memoryUsage <= ctx.memoryLimit < HALF_U64
    requires ctx.writeLimit.Some? ==>
      FileBytes(entries) + FileLength(p, e) <= ctx.writeUsed + (if p in entries then FileLength(p, entries[p]) else 0)
      && ctx.writeUsed <= ctx.writeLimit.value < U64_MAX
    ensures Valid(state, ctx)
  {
    PutEntry(ctx.host, entries, p, e);
    SumUpdate(entries, FileLength, p, e);
  }

  /** Where the plain filesystem accepts a write, an overlay file shows it. */
  lemma WriteLands(host: Tree, entries: Entries, p: Path, data: Bytes)
    requires Inv(host, entries) && Write(View(host, entries), p, data).Ok?
    ensures Writable(View(host, entries), p)
    ensures View(host, entries[p := FileEntry(data)]) == Write(View(host, entries), p, data).value
  {
    FileIsEmpty(View(host, entries), p);
    PutView(host, entries, p, FileEntry(data));
  }

  /** Finds whether a file may be written at `p`. */
  method WriteTarget(entries: Entries, host: Tree, p: Path) returns (r: Result<()>)
    requires Inv(host, entries)
    ensures r == PutAnswer(Write(View(host, entries), p, []), Shadowed(host, entries, p), true)
    ensures r.Ok? && p !in entries ==> !LinkOn(host, p)
    ensures r.Ok? ==> Look(host, entries, p) != Some(Dir)
  {
    r := EnsureParentExists(entries, host, p);
    if r.Err? { return; }
    if Shadowed(host, entries, p) { ShadowedIsAbsent(host, entries, p); }
    r := RejectDirectoryTarget(entries, host, p);
    if r.Ok? { AppendTargetLinkFree(host, entries, p); }
  }

  /** Creates or truncates a file. */
  method WriteBytes(state: OverlayState, ctx: MountContext, p: Path, data: Bytes) returns (r: Result<nat>)
    requires Valid(state, ctx)
    modifies state, ctx
    ensures Valid(state, ctx)
    ensures r == if !old(ctx.WithinQuota(|data|)) then Err(WriteLimit)
                 else match PutAnswer(Write(old(Merged(state, ctx)), p, data), Shadowed(ctx.host, old(state.entries), p),
                                      Usage(old(state.entries)[p := FileEntry(data)]) <= ctx.memoryLimit)
                   case Ok(_) => Ok(|data|)
                   case Err(e) => Err(e)
    ensures r.Err? ==> unchanged(state) && unchanged(ctx)
    ensures r.Ok? ==> state.entries == old(state.entries)[p := FileEntry(data)]
    ensures r.Ok? ==> Merged(state, ctx) == Write(old(Merged(state, ctx)), p, data).value
    ensures r.Ok? ==> ctx.writeUsed == old(ctx.writeUsed) + if ctx.writeLimit.Some? then |data| else 0
  {
    hide Inv, View;
    ghost var entries := state.entries;
    var quota := ctx.CheckWriteLimit(|data|);
    if quota.Err? { return Err(quota.error); }
    var target := WriteTarget(state.entries, ctx.host, p);
    if target.Err? { return Err(target.error); }
    var room := state.CheckFileReplacement(p, |data|, ctx.memoryLimit);
    if room.Err? { return Err(room.error); }
    WriteLands(ctx.host, entries, p, data);
    var inserted := state.Insert(p, FileEntry(data), ctx.memoryLimit);
    ctx.CommitWriteBytes(|data|);
    PutKeepsValid(state, ctx, entries, p, FileEntry(data));
    return Ok(|data|);
  }

  /** A host node that is no link has no link above it either. */
  lemma NoLinkOnNode(host: Tree, p: Path)
    requires WellFormed(host) && p in host && !host[p].Link?
    ensures !LinkOn(host, p)
  {
    forall h | h in host && h <= p ensures !host[h].Link? {
      assert h == p || h < p;
    }
  }

  /** The visible length of an append's target, found without reading it. */
  method ExistingFileLen(entries: Entries, host: Tree, p: Path) returns (n: nat)
    requires Inv(host, entries) && !Shadowed(host, entries, p)
    requires p !in entries ==> !LinkOn(host, p)
    requires !(Look(host, entries, p) == Some(Dir))
    ensures n == |Content(View(host, entries), p)|
  {
    if p in entries {
      match entries[p] {
        case FileEntry(content) => return |content|;
        case Deleted => return 0;
        case RefEntry(rel, _) =>
          NoLinkOnNode(host, rel);
          var chain := RejectSymlinkChain(host, rel);
          assert chain.Ok?;
          var found := Metadata(host, rel);
          return |found.value.content|;
      }
    }
    var found := Metadata(host, p);
    match found {
      case Ok(node) => n := |node.content|;
      case Err(_) => n := 0;
    }
  }

  /** Loads an append's target within a budget. */
  method ExistingFileBytes(entries: Entries, host: Tree, p: Path, available: nat) returns (r: Result<Bytes>)
    requires Inv(host, entries) && !Shadowed(host, entries, p)
    requires p !in entries ==> !LinkOn(host, p)
    requires !(Look(host, entries, p) == Some(Dir))
    ensures r == if |Content(View(host, entries), p)| <= available then Ok(Content(View(host, entries), p))
                 else Err(MemoryLimit)
  {
    var content: Bytes := [];
    if p in entries {
      match entries[p] {
        case FileEntry(held) => content := held;
        case Deleted => content := [];
        case RefEntry(rel, _) =>
          NoLinkOnNode(host, rel);
          var chain := RejectSymlinkChain(host, rel);
          assert chain.Ok?;
          var found := Metadata(host, rel);
          content := found.value.content;
      }
    } else {
      var found := Metadata(host, p);
      if found.Ok? { content := found.value.content; }
    }
    r := if |content| > available then Err(MemoryLimit) else Ok(content);
  }

  /** The content visible at `p`, empty where no file is. */
  ghost function Content(t: Tree, p: Path): Bytes
  {
    if p in t && t[p].File? then t[p].content else []
  }

  /** Whether an append fits the memory budget: in place for an overlay file, through a copy otherwise. */
  ghost predicate AppendFits(host: Tree, entries: Entries, limit: nat, p: Path, data: Bytes)
  {
    var whole := Content(View(host, entries), p) + data;
    if p in entries && entries[p].FileEntry? then SatAdd(Usage(entries), |data|) <= limit
    else Usage(entries[p := FileEntry(whole)]) <= limit && Usage(entries) + |whole| <= limit
  }

  /** What an append is charged: copying a host file up counts its bytes too. */
  ghost function AppendCharge(host: Tree, entries: Entries, limited: bool, p: Path, data: Bytes): nat
  {
    if limited && !(p in entries && entries[p].FileEntry?) then
      SatAdd(|Content(View(host, entries), p)|, |data|)
    else |data|
  }

  /** Under a write limit an append is charged exactly the content that comes to be held. */
  lemma AppendChargeMeans(host: Tree, entries: Entries, p: Path, data: Bytes)
    requires |Content(View(host, entries), p)| + |data| <= U64_MAX
    ensures FileBytes(entries[p := FileEntry(Content(View(host, entries), p) + data)]) ==
            FileBytes(entries) + AppendCharge(host, entries, true, p, data)
  {
    SumUpdate(entries, FileLength, p, FileEntry(Content(View(host, entries), p) + data));
    ViewAt(host, entries, p);
  }

  /** An append fits when the longer file does and, unless the file is held, a copy of it beside what is there. */
  lemma AppendFitsMeans(host: Tree, entries: Entries, limit: nat, p: Path, data: Bytes)
    requires Usage(entries) <= limit < U64_MAX
    ensures
      var whole := Content(View(host, entries), p) + data;
      AppendFits(host, entries, limit, p, data) <==>
      && Usage(entries[p := FileEntry(whole)]) <= limit
      && ((p in entries && entries[p].FileEntry?) || Usage(entries) + |whole| <= limit)
  {
    hide View;
    var whole := Content(View(host, entries), p) + data;
    SumUpdate(entries, EntryUsage, p, FileEntry(whole));
    ViewAt(host, entries, p);
  }

  lemma AppendTargetLinkFree(host: Tree, entries: Entries, p: Path)
    requires Inv(host, entries) && ParentError(View(host, entries), p).Ok?
    requires !(p in View(host, entries) && View(host, entries)[p].Link?)
    ensures p !in entries ==> !LinkOn(host, p)
  {
    NoLinkAbove(host, entries, p);
    if p !in entries && LinkOn(host, p) { LinkAtEnd(host, p); }
  }

  /** A saturated length asks for the same room as the true one. */
  lemma SaturatedLength(entries: Entries, p: Path, whole: Bytes, n: nat)
    requires n == if |whole| > U64_MAX then U64_MAX else |whole|
    ensures Usage(entries[p := FileEntry(whole[..n])]) == Usage(entries[p := FileEntry(whole)])
  {
    SumUpdate(entries, EntryUsage, p, FileEntry(whole));
    SumUpdate(entries, EntryUsage, p, FileEntry(whole[..n]));
  }

  /** Extends an overlay file in place, or copies the visible content up and extends the copy. */
  method StoreAppended(state: OverlayState, ctx: MountContext, p: Path, data: Bytes, existing: nat)
    returns (r: Result<()>)
    requires Inv(ctx.host, state.entries) && !Shadowed(ctx.host, state.entries, p)
    requires p !in state.entries ==> !LinkOn(ctx.host, p)
    requires !(Look(ctx.host, state.entries, p) == Some(Dir))
    requires state.Accounted() && state.memoryUsage <= ctx.memoryLimit < HALF_U64
    requires existing == |Content(Merged(state, ctx), p)|
    modifies state
    ensures state.Accounted()
    ensures r == if AppendFits(ctx.host, old(state.entries), ctx.memoryLimit, p, data) then Ok(()) else Err(MemoryLimit)
    ensures r.Err? ==> unchanged(state)
    ensures r.Ok? ==> state.entries == old(state.entries)[p := FileEntry(Content(old(Merged(state, ctx)), p) + data)]
    ensures r.Ok? ==> state.memoryUsage <= ctx.memoryLimit
  {
    hide Inv, View, Shadowed, LinkOn;
    ViewAt(ctx.host, state.entries, p);
    ghost var whole := Content(Merged(state, ctx), p) + data;
    var extended := state.AppendFile(p, data, ctx.memoryLimit);
    if extended.Err? { return Err(extended.error); }
    if !extended.value {
      var finalLen := SatAdd(existing, |data|);
      var room := state.CheckFileReplacement(p, finalLen, ctx.memoryLimit);
      SaturatedLength(state.entries, p, whole, finalLen);
      if room.Err? { return Err(room.error); }
      var available := ctx.memoryLimit - state.memoryUsage;
      if finalLen > available { return Err(MemoryLimit); }
      var loaded := ExistingFileBytes(state.entries, ctx.host, p, available - |data|);
      var inserted := state.Insert(p, FileEntry(loaded.value + data), ctx.memoryLimit);
    }
    return Ok(());
  }

  /** Appends to the visible content of a file, creating it if it is missing. */
  method AppendBytes(state: OverlayState, ctx: MountContext, p: Path, data: Bytes) returns (r: Result<nat>)
    requires Valid(state, ctx)
    modifies state, ctx
    ensures Valid(state, ctx)
    ensures
      var t, entries := old(Merged(state, ctx)), old(state.entries);
      var charge := AppendCharge(ctx.host, entries, ctx.writeLimit.Some?, p, data);
      r == if Append(t, p, data).Err? then Err(Append(t, p, data).error)
           else if Shadowed(ctx.host, entries, p) then Err(NotADirectory)
           else if !old(ctx.WithinQuota(charge)) then Err(WriteLimit)
           else if !AppendFits(ctx.host, entries, ctx.memoryLimit, p, data) then Err(MemoryLimit)
           else Ok(|data|)
    ensures r.Err? ==> unchanged(state) && unchanged(ctx)
    ensures r.Ok? ==> state.entries == old(state.entries)[p := FileEntry(Content(old(Merged(state, ctx)), p) + data)]
    ensures r.Ok? ==> Merged(state, ctx) == Append(old(Merged(state, ctx)), p, data).value
    ensures
      var charge := if ctx.writeLimit.Some? then AppendCharge(ctx.host, old(state.entries), true, p, data) else 0;
      r.Ok? ==> ctx.writeUsed == old(ctx.writeUsed) + charge
  {
    hide Inv, View;
    ViewAt(ctx.host, state.entries, p);
    ghost var entries, whole := state.entries, Content(Merged(state, ctx), p) + data;
    var target := WriteTarget(state.entries, ctx.host, p);
    if target.Err? { return Err(target.error); }
    var overlayFile := p in state.entries && state.entries[p].FileEntry?;
    var existing := ExistingFileLen(state.entries, ctx.host, p);
    var charge := if ctx.writeLimit.Some? && !overlayFile then SatAdd(existing, |data|) else |data|;
    var quota := ctx.CheckWriteLimit(charge);
    if quota.Err? { return Err(quota.error); }
    WriteLands(ctx.host, entries, p, whole);
    var stored := StoreAppended(state, ctx, p, data, existing);
    if stored.Err? { return Err(stored.error); }
    ctx.CommitWriteBytes(charge);
    PutKeepsValid(state, ctx, entries, p, FileEntry(whole));
    return Ok(|data|);
  }

  /** An empty file put at a free place. */
  method InsertEmptyFile(state: OverlayState, ctx: MountContext, p: Path) returns (r: Result<()>)
    requires Valid(state, ctx) && p !in Merged(state, ctx) && ParentError(Merged(state, ctx), p).Ok?
    modifies state
    ensures Valid(state, ctx)
    ensures r == if Usage(old(state.entries)[p := FileEntry([])]) <= ctx.memoryLimit then Ok(()) else Err(MemoryLimit)
    ensures r.Err? ==> unchanged(state)
    ensures r.Ok? ==> state.entries == old(state.entries)[p := FileEntry([])]
    ensures r.Ok? ==> Merged(state, ctx) == old(Merged(state, ctx))[p := File([])]
  {
    ghost var entries := state.entries;
    WriteLands(ctx.host, entries, p, []);
    r := state.Insert(p, FileEntry([]), ctx.memoryLimit);
    if r.Ok? { PutKeepsValid(state, ctx, entries, p, FileEntry([])); }
  }

  /** Reserves a name nothing visible occupies, a tombstone's included. */
  method CreateExclusive(state: OverlayState, ctx: MountContext, p: Path) returns (r: Result<()>)
    requires Valid(state, ctx)
    modifies state
    ensures Valid(state, ctx)
    ensures r == PutAnswer(PlainFs.CreateExclusive(old(Merged(state, ctx)), p), Shadowed(ctx.host, old(state.entries), p),
                           Usage(old(state.entries)[p := FileEntry([])]) <= ctx.memoryLimit)
    ensures r.Err? ==> unchanged(state)
    ensures r.Ok? ==> state.entries == old(state.entries)[p := FileEntry([])]
    ensures r.Ok? ==> Merged(state, ctx) == PlainFs.CreateExclusive(old(Merged(state, ctx)), p).value
  {
    r := EnsureParentExists(state.entries, ctx.host, p);
    if r.Err? { return; }
    var occupied;
    if p in state.entries {
      occupied := !state.entries[p].Deleted?;
    } else {
      NoLinkAbove(ctx.host, state.entries, p);
      var found := ClassifyTarget(ctx.host, p);
      if found.Err? {
        ShadowedIsAbsent(ctx.host, state.entries, p);
        return Err(found.error);
      }
      occupied := found.value != RealAbsent;
    }
    if occupied { return Err(AlreadyExists); }
    var quota := ctx.CheckWriteLimit(0);
    assert quota.Ok?;
    r := InsertEmptyFile(state, ctx, p);
  }

  /** The open-time effect of append mode: create if missing, never copy a host file up. */
  method EnsureAppendTargetExists(state: OverlayState, ctx: MountContext, p: Path) returns (r: Result<()>)
    requires Valid(state, ctx)
    modifies state
    ensures Valid(state, ctx)
    ensures
      var t, entries := old(Merged(state, ctx)), old(state.entries);
      r == if Shadowed(ctx.host, entries, p) then Err(NotADirectory)
           else if OpenAppend(t, p).Err? then Err(OpenAppend(t, p).error)
           else if p in t || Usage(entries[p := FileEntry([])]) <= ctx.memoryLimit then Ok(())
           else Err(MemoryLimit)
    ensures r.Err? ==> unchanged(state)
    ensures r.Ok? ==> Merged(state, ctx) == OpenAppend(old(Merged(state, ctx)), p).value
    ensures r.Ok? ==> state.entries == if p in old(Merged(state, ctx)) then old(state.entries)
                                       else old(state.entries)[p := FileEntry([])]
  {
    hide Inv, View, LinkOn;
    ViewAt(ctx.host, state.entries, p);
    if p in state.entries {
      match state.entries[p] {
        case FileEntry(_) =>
          return Ok(());
        case RefEntry(_, _) =>
          RefShows(ctx.host, state.entries, p);
          return Ok(());
        case DirEntry =>
          return Err(IsADirectory);
        case Deleted =>
          r := EnsureParentExists(state.entries, ctx.host, p) by { InvHost(ctx.host, state.entries); }
          if r.Ok? { r := InsertEmptyFile(state, ctx, p); }
          return;
      }
    }
    InvHost(ctx.host, state.entries);
    var chain := RejectSymlinkChain(ctx.host, p);
    if chain.Err? {
      LinkOnPath(ctx.host, state.entries, p);
      return chain;
    }
    LinkOnImplies(ctx.host, p);
    var found := ClassifyTarget(ctx.host, p);
    if found.Err? {
      return Err(found.error);
    }
    match found.value {
      case RealDir =>
        r := Err(IsADirectory);
      case RealSymlink =>
        r := Err(PathEscape);
      case RealFile =>
        r := EnsureParentExists(state.entries, ctx.host, p);
        NodeParents(ctx.host, state.entries, p);
      case RealAbsent =>
        r := EnsureParentExists(state.entries, ctx.host, p);
        if r.Ok? { r := InsertEmptyFile(state, ctx, p); }
    }
  }

  lemma InvEntries(host: Tree, entries: Entries)
    requires Inv(host, entries)
    ensures EntriesValid(host, entries)
  {
  }

  lemma InvHost(host: Tree, entries: Entries)
    requires Inv(host, entries)
    ensures WellFormed(host) && WellFormed(View(host, entries))
  {
  }

  lemma LinkOnImplies(host: Tree, p: Path)
    requires !LinkOn(host, p)
    ensures !LinkAbove(host, p)
    ensures p in host ==> !host[p].Link?
  {
    assert p <= p;
  }

  /** A reference always shows the host file it names. */
  lemma RefShows(host: Tree, entries: Entries, p: Path)
    requires Inv(host, entries) && p in entries && entries[p].RefEntry?
    ensures Look(host, entries, p).Some? && Look(host, entries, p).value.File?
  {
    assert EntryValid(host, entries[p]);
  }

  /** Whatever is visible has enterable parents. */
  lemma NodeParents(host: Tree, entries: Entries, p: Path)
    requires Inv(host, entries) && p in View(host, entries)
    ensures ParentError(View(host, entries), p).Ok?
  {
    if p != [] {
      ChainOk(View(host, entries), Parent(p));
      assert Parent(p) < p;
    }
  }

  /** A link on the way to an unkeyed path is what the view shows there, below directories only. */
  lemma LinkOnPath(host: Tree, entries: Entries, p: Path)
    requires Inv(host, entries) && p !in entries && LinkOn(host, p)
    ensures !FileAbove(host, p)
    ensures p in View(host, entries) ==> View(host, entries)[p].Link?
    ensures p !in View(host, entries) ==>
      ParentError(View(host, entries), p) == Err(PathEscape) && MakeChainError(View(host, entries), p) == Err(PathEscape)
  {
    var t := View(host, entries);
    var h :| h in host && h <= p && host[h].Link?;
    LinkShows(host, entries, h);
    OnlyDirsAroundLink(host, p, h);
    if h < p {
      assert h == Parent(p)[..|h|] && h == p[..|h|] && h != [];
      LinkFailsChain(t, Parent(p), |h|);
      LinkFailsChain(t, p, |h|);
    } else {
      assert h == p;
    }
  }

  lemma LinkShows(host: Tree, entries: Entries, h: Path)
    requires Inv(host, entries) && h in host && host[h].Link?
    ensures h !in entries && h in View(host, entries) && View(host, entries)[h].Link?
    ensures forall p :: h < p ==> p !in View(host, entries)
  {
    assert h <= h;
  }

  lemma OnlyDirsAroundLink(host: Tree, p: Path, h: Path)
    requires WellFormed(host) && h in host && host[h].Link? && h <= p
    ensures !FileAbove(host, p)
  {
    forall i | 0 <= i < |p| && p[..i] in host ensures !host[p[..i]].File? {
      assert i < |h| ==> p[..i] < h;
      assert i == |h| ==> p[..i] == h;
    }
  }

  /** In a well-formed tree a chain through a link is refused at the link. */
  lemma {:induction false} LinkFailsChain(t: Tree, d: Path, n: nat)
    requires WellFormed(t) && 0 < n <= |d| && d[..n] in t && t[d[..n]].Link?
    ensures ChainError(t, d) == Err(PathEscape) && MakeChainError(t, d) == Err(PathEscape)
  {
    if n < |d| {
      assert Parent(d)[..n] == d[..n];
      LinkFailsChain(t, Parent(d), n);
    } else {
      assert d[..n] == d && Parent(d) < d;
      ChainOk(t, Parent(d));
      MakeChainOk(t, Parent(d));
    }
  }

  lemma {:induction false} MakeChainOk(t: Tree, d: Path)
    requires WellFormed(t) && d in t && t[d].Dir?
    ensures MakeChainError(t, d).Ok?
  {
    if d != [] {
      assert Parent(d) < d;
      MakeChainOk(t, Parent(d));
    }
  }

  /**
   * The directories `mkdir(parents=True)` must record, the target last: every
   * component that is a directory in neither layer.
   */
  method OverlayDirsToCreate(entries: Entries, host: Tree, p: Path) returns (r: Result<seq<Path>>)
    requires WellFormed(host) && EntriesValid(host, entries)
    ensures
      var t := View(host, entries);
      if MakeChainError(t, p).Err? then r == Err(MakeChainError(t, p).error)
      else r.Ok? && Lists(r.value, MissingAbove(t, p))
  {
    hide View, MakeChainError, MissingAbove, EntriesValid;
    var walk := new ComponentWalk(host);
    var toCreate: seq<Path> := [];
    MakeStart(host, entries, p);
    for i := 0 to |p|
      invariant walk.Valid() && walk.host == host && walk.walked == p[..i]
      invariant MakeChainError(View(host, entries), p[..i]).Ok?
      invariant Lists(toCreate, MissingAbove(View(host, entries), p[..i]))
      invariant forall d :: d in toCreate ==> |d| <= i
    {
      var found := walk.Step(p[i]);
      var current := p[..i + 1];
      assert current == p[..i] + [p[i]];
      var step := MakeStep(entries, current, found);
      MakeStepMeans(host, entries, p, i);
      if step.Err? {
        return Err(step.error);
      }
      if step.value {
        toCreate := toCreate + [current];
      }
    }
    assert p[..|p|] == p;
    return Ok(toCreate);
  }

  /** Whether `mkdir(parents=True)` must record one component, from its entry and what the host has there. */
  function MakeStep(entries: Entries, current: Path, found: RealTarget): Result<bool>
  {
    if current in entries then
      match entries[current]
      case DirEntry => Ok(false)
      case Deleted => Ok(true)
      case _ => Err(NotADirectory)
    else match found
      case RealDir => Ok(false)
      case RealSymlink => Err(PathEscape)
      case RealFile => Err(NotADirectory)
      case RealAbsent => Ok(true)
  }

  lemma MakeStart(host: Tree, entries: Entries, p: Path)
    ensures MakeChainError(View(host, entries), p[..0]).Ok? && MissingAbove(View(host, entries), p[..0]) == {}
  {
  }

  lemma MakeStepMeans(host: Tree, entries: Entries, p: Path, i: nat)
    requires EntriesValid(host, entries)
    requires i < |p| && MakeChainError(View(host, entries), p[..i]).Ok?
    ensures
      var t, current := View(host, entries), p[..i + 1];
      var step := MakeStep(entries, current, KindAt(host, current));
      if step.Err? then MakeChainError(t, p) == Err(step.error)
      else
        && MakeChainError(t, current).Ok?
        && MissingAbove(t, current) == MissingAbove(t, p[..i]) + if step.value then {current} else {}
  {
    var t, current := View(host, entries), p[..i + 1];
    ViewAt(host, entries, current);
    assert current in entries ==> EntryValid(host, entries[current]);
    assert Parent(current) == p[..i];
    if MakeChainError(t, current).Err? {
      MakeChainFails(t, p, i + 1);
    }
  }

  lemma {:induction false} MakeChainFails(t: Tree, d: Path, n: nat)
    requires n <= |d| && MakeChainError(t, d[..n]).Err?
    ensures MakeChainError(t, d) == MakeChainError(t, d[..n])
  {
    if n < |d| {
      assert Parent(d)[..n] == d[..n];
      MakeChainFails(t, Parent(d), n);
    } else {
      assert d[..n] == d;
    }
  }
}
