/** Directory creation in the overlay: several entries recorded as one update. */
module OverlayMkdir {
  import opened Paths
  import opened PlainFs
  import opened OverlayView
  import opened OverlayStorage
  import opened HostWalk
  import opened OverlayOps
  import opened Listings
  import opened Sums

  /** Absent places whose missing ancestors are all filled in with them. */
  ghost predicate Fillable(t: Tree, ds: set<Path>)
  {
    forall d :: d in ds ==> d != [] && d !in t && forall q :: q < d ==> q in ds || (q in t && t[q].Dir?)
  }

  lemma {:induction false} MissingFillable(t: Tree, p: Path)
    requires WellFormed(t) && MakeChainError(t, p).Ok?
    ensures Fillable(t, MissingAbove(t, p))
    ensures forall q :: q <= p ==> q in MissingAbove(t, p) || (q in t && t[q].Dir?)
    ensures forall d :: d in MissingAbove(t, p) ==> d <= p
  {
    if p != [] {
      MissingFillable(t, Parent(p));
      forall q | q <= p ensures q in MissingAbove(t, p) || (q in t && t[q].Dir?) {
        assert q == p || q <= Parent(p);
      }
      forall d, q | d in MissingAbove(t, p) && q < d ensures q in MissingAbove(t, p) || (q in t && t[q].Dir?) {
        assert d == p ==> q <= Parent(p);
      }
    }
  }

  lemma TargetFillable(t: Tree, p: Path)
    requires WellFormed(t) && ParentError(t, p).Ok? && p !in t
    ensures Fillable(t, {p})
  {
    forall q | q < p ensures q in t && t[q].Dir? {
      DirsAbove(t, p, q);
    }
  }

  ghost function WithDirs(entries: Entries, ds: set<Path>): Entries
  {
    entries + map d | d in ds :: DirEntry
  }

  lemma FillView(host: Tree, entries: Entries, ds: set<Path>)
    ensures View(host, WithDirs(entries, ds)) == AddDirs(View(host, entries), ds)
  {
    var u, v := View(host, WithDirs(entries, ds)), AddDirs(View(host, entries), ds);
    assert u.Keys == v.Keys;
  }

  lemma FillForm(t: Tree, ds: set<Path>)
    requires WellFormed(t) && Fillable(t, ds)
    ensures WellFormed(AddDirs(t, ds))
  {
  }

  lemma FillKeys(host: Tree, entries: Entries, ds: set<Path>)
    requires Inv(host, entries) && Fillable(View(host, entries), ds)
    ensures ShadowClosed(host, WithDirs(entries, ds)) && LinkFreeKeys(host, WithDirs(entries, ds))
  {
    var t, after := View(host, entries), WithDirs(entries, ds);
    forall k, h | k in after && h in host && k < h ensures h in after {
      if k !in entries {
        FileIsEmpty(t, k);
        ViewAt(host, entries, h);
      }
    }
    forall k, h | k in after && h in host && host[h].Link? ensures !(h <= k) {
      LinkShows(host, entries, h);
      assert h <= k ==> h == k || h < k;
    }
  }

  /** Recording directories at fillable places shows exactly those directories and keeps the invariant. */
  lemma FillKeeps(host: Tree, entries: Entries, ds: set<Path>)
    requires Inv(host, entries) && Fillable(View(host, entries), ds)
    ensures Inv(host, WithDirs(entries, ds))
    ensures View(host, WithDirs(entries, ds)) == AddDirs(View(host, entries), ds)
  {
    FillView(host, entries, ds);
    FillForm(View(host, entries), ds);
    FillKeys(host, entries, ds);
  }

  function DirReplacements(ds: seq<Path>): (reps: seq<Replacement>)
  {
    seq(|ds|, i requires 0 <= i < |ds| => Replacement(ds[i], DirEntry))
  }

  lemma DirsApplied(entries: Entries, ds: seq<Path>, all: set<Path>)
    requires Lists(ds, all)
    ensures Apply(entries, DirReplacements(ds)) == WithDirs(entries, all)
    ensures OverwritesTombstones(DirReplacements(ds))
  {
    var reps := DirReplacements(ds);
    var x, y := Apply(entries, reps), WithDirs(entries, all);
    forall k ensures Look1(x, k) == Look1(y, k) {
      var j := LastWrite(entries, reps, k);
      assert forall i :: 0 <= i < |ds| ==> ds[i] in all;
      if k in all {
        assert k in ds;
        var i :| 0 <= i < |ds| && ds[i] == k;
        assert reps[i].path == k;
      }
    }
    MapsAgree(x, y);
  }

  lemma MapsAgree(x: Entries, y: Entries)
    requires forall k :: Look1(x, k) == Look1(y, k)
    ensures x == y
  {
    forall k ensures k in x <==> k in y {
      assert Look1(x, k) == Look1(y, k);
    }
    forall k | k in x ensures x[k] == y[k] {
      assert Look1(x, k) == Look1(y, k);
    }
  }

  /** A list naming each member once is as long as the set. */
  lemma {:induction false} ListLength<T(!new)>(s: seq<T>, all: set<T>)
    requires Lists(s, all)
    ensures |s| == |all|
  {
    if s == [] {
      assert all == {};
    } else {
      var n := |s| - 1;
      assert s[n] in all;
      forall x ensures x in s[..n] <==> x in all - {s[n]} {
        assert x in s ==> x in s[..n] || x == s[n];
      }
      ListLength(s[..n], all - {s[n]});
    }
  }

  /** Writes a checked list of replacements. */
  method Commit(state: OverlayState, reps: seq<Replacement>)
    requires state.Accounted() && OverwritesTombstones(reps)
    requires Usage(Apply(state.entries, reps)) + Usage(state.entries) <= U64_MAX
    modifies state
    ensures state.Accounted() && state.entries == Apply(old(state.entries), reps)
  {
    ghost var start := state.entries;
    for i := 0 to |reps|
      invariant state.Accounted() && state.entries == Apply(start, reps[..i])
    {
      assert reps[..i + 1][..i] == reps[..i];
      ApplyPeak(start, reps, i + 1);
      state.InsertUnchecked(reps[i].path, reps[i].entry);
    }
    assert reps[..|reps|] == reps;
  }

  /** The directories a `mkdir` of an absent path makes visible. */
  ghost function Created(t: Tree, p: Path, parents: bool): set<Path>
  {
    if parents then MissingAbove(t, p) else {p}
  }

  /** The directories to record for an absent target, or why there are none. */
  method PlanMkdir(entries: Entries, host: Tree, p: Path, parents: bool) returns (r: Result<seq<Path>>)
    requires Inv(host, entries) && p !in View(host, entries)
    ensures
      var t := View(host, entries);
      var plain := PlainFs.Mkdir(t, p, parents, false);
      if plain.Err? then r == Err(plain.error)
      else
        && r.Ok? && Lists(r.value, Created(t, p, parents))
        && Fillable(t, Created(t, p, parents)) && plain.value == AddDirs(t, Created(t, p, parents))
  {
    hide Inv, View, WellFormed, Fillable, ChainError, MakeChainError, MissingAbove;
    InvHost(host, entries);
    if parents {
      r := OverlayDirsToCreate(entries, host, p) by { InvEntries(host, entries); }
      if r.Ok? { MissingFillable(View(host, entries), p); }
    } else {
      var chain := EnsureParentExists(entries, host, p);
      if chain.Err? { return Err(chain.error); }
      TargetFillable(View(host, entries), p);
      r := Ok([p]);
    }
  }

  method Mkdir(state: OverlayState, ctx: MountContext, p: Path, parents: bool, existOk: bool) returns (r: Result<()>)
    requires Valid(state, ctx)
    modifies state, ctx
    ensures Valid(state, ctx)
    ensures
      var t, entries := old(Merged(state, ctx)), old(state.entries);
      var plain, made := PlainFs.Mkdir(t, p, parents, existOk), Created(t, p, parents);
      r == if Shadowed(ctx.host, entries, p) then Err(NotADirectory)
           else if plain.Err? then Err(plain.error)
           else if p in t then Ok(())
           else if !old(ctx.WithinQuota(|made| * DIRECTORY_WRITE_BYTES)) then Err(WriteLimit)
           else if Usage(WithDirs(entries, made)) > ctx.memoryLimit then Err(MemoryLimit)
           else Ok(())
    ensures r.Err? || p in old(Merged(state, ctx)) ==> unchanged(state) && unchanged(ctx)
    ensures r.Ok? ==> Merged(state, ctx) == PlainFs.Mkdir(old(Merged(state, ctx)), p, parents, existOk).value
    ensures r.Ok? && p !in old(Merged(state, ctx)) ==>
      state.entries == WithDirs(old(state.entries), Created(old(Merged(state, ctx)), p, parents))
    // each directory that becomes visible is charged one block
    ensures
      var appeared := Merged(state, ctx).Keys - old(Merged(state, ctx)).Keys;
      ctx.writeUsed == old(ctx.writeUsed) + if ctx.writeLimit.Some? then |appeared| * DIRECTORY_WRITE_BYTES else 0
  {
    hide Inv, View, Lists, MissingAbove, MakeChainError, ChainError, Fillable, WithDirs, Shadowed;
    ghost var t, entries := Merged(state, ctx), state.entries;
    assert Merged(state, ctx).Keys - t.Keys == {};
    var target := MkdirTarget(state.entries, ctx.host, p, existOk);
    if target.Err? { return Err(target.error); }
    if !target.value { return Ok(()); }
    var plan := PlanMkdir(state.entries, ctx.host, p, parents);
    if plan.Err? { return Err(plan.error); }
    r := RecordDirs(state, ctx, plan.value, Created(t, p, parents));
  }

  /** Whether a `mkdir` target is still to be made; an existing directory is accepted only if asked. */
  method MkdirTarget(entries: Entries, host: Tree, p: Path, existOk: bool) returns (r: Result<bool>)
    requires Inv(host, entries)
    ensures
      var t := View(host, entries);
      if Shadowed(host, entries, p) then r == Err(NotADirectory) && p !in t
      else if p in t then
        r == match t[p]
             case Dir => if existOk then Ok(false) else Err(AlreadyExists)
             case File(_) => Err(AlreadyExists)
             case Link(_) => Err(PathEscape)
      else
        || r == Ok(true)
        || (r == Err(PathEscape) && ParentError(t, p) == Err(PathEscape) && MakeChainError(t, p) == Err(PathEscape))
  {
    hide Inv, View, LinkOn, MakeChainError, ChainError;
    ViewAt(host, entries, p);
    InvHost(host, entries);
    if p in entries {
      match entries[p] {
        case DirEntry => return if existOk then Ok(false) else Err(AlreadyExists);
        case FileEntry(_) => return Err(AlreadyExists);
        case RefEntry(_, _) =>
          RefShows(host, entries, p);
          return Err(AlreadyExists);
        case Deleted => return Ok(true);
      }
    }
    var chain := RejectSymlinkChain(host, p);
    if chain.Err? {
      LinkOnPath(host, entries, p);
      return Err(chain.error);
    }
    LinkOnImplies(host, p);
    var found := ClassifyTarget(host, p);
    if found.Err? { return Err(found.error); }
    match found.value {
      case RealDir => return if existOk then Ok(false) else Err(AlreadyExists);
      case RealFile => return Err(AlreadyExists);
      case RealSymlink => return Err(PathEscape);
      case RealAbsent => return Ok(true);
    }
  }

  /** Records directories if the map with all of them fits. */
  method FitDirs(state: OverlayState, toCreate: seq<Path>, ghost made: set<Path>, limit: nat) returns (r: Result<()>)
    requires state.Accounted() && state.memoryUsage <= limit < HALF_U64 && Lists(toCreate, made)
    modifies state
    ensures state.Accounted()
    ensures r == if Usage(WithDirs(old(state.entries), made)) > limit then Err(MemoryLimit) else Ok(())
    ensures r.Err? ==> unchanged(state)
    ensures r.Ok? ==> state.entries == WithDirs(old(state.entries), made) && state.memoryUsage <= limit
  {
    hide Lists, OverwritesTombstones, WithDirs, Apply, Usage, Peak, DirReplacements;
    var reps := DirReplacements(toCreate);
    DirsApplied(state.entries, toCreate, made);
    r := state.CheckReplacements(reps, limit);
    if r.Ok? { Commit(state, reps); }
  }

  /** Checks both limits for every directory, then records them all. */
  method RecordDirs(state: OverlayState, ctx: MountContext, toCreate: seq<Path>, ghost made: set<Path>)
    returns (r: Result<()>)
    requires Valid(state, ctx) && Lists(toCreate, made) && Fillable(Merged(state, ctx), made)
    modifies state, ctx
    ensures Valid(state, ctx)
    ensures r == if !old(ctx.WithinQuota(|made| * DIRECTORY_WRITE_BYTES)) then Err(WriteLimit)
                 else if Usage(WithDirs(old(state.entries), made)) > ctx.memoryLimit then Err(MemoryLimit)
                 else Ok(())
    ensures r.Err? ==> unchanged(state) && unchanged(ctx)
    ensures r.Ok? ==> state.entries == WithDirs(old(state.entries), made)
    ensures r.Ok? ==> Merged(state, ctx) == AddDirs(old(Merged(state, ctx)), made)
    ensures
      var appeared := Merged(state, ctx).Keys - old(Merged(state, ctx)).Keys;
      ctx.writeUsed == old(ctx.writeUsed) + if ctx.writeLimit.Some? then |appeared| * DIRECTORY_WRITE_BYTES else 0
  {
    hide Inv, View, Lists, Fillable, WithDirs, Usage, AddDirs, FileBytes;
    ghost var t, entries := Merged(state, ctx), state.entries;
    assert Merged(state, ctx).Keys - t.Keys == {};
    ListLength(toCreate, made);
    var charge := |toCreate| * DIRECTORY_WRITE_BYTES;
    var quota := ctx.CheckWriteLimit(charge);
    if quota.Err? { return quota; }
    r := FitDirs(state, toCreate, made, ctx.memoryLimit);
    if r.Err? { return; }
    ctx.CommitWriteBytes(charge);
    FillKeeps(ctx.host, entries, made);
    NewKeys(t, made);
    DirsHoldNoBytes(entries, made);
  }

  lemma NewKeys(t: Tree, ds: set<Path>)
    requires Fillable(t, ds)
    ensures AddDirs(t, ds).Keys - t.Keys == ds
  {
  }

  lemma DirsHoldNoBytes(entries: Entries, ds: set<Path>)
    ensures FileBytes(WithDirs(entries, ds)) <= FileBytes(entries)
  {
    SumCovered(WithDirs(entries, ds), entries, map[], FileLength);
  }
}
