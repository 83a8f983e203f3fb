/**
 * Whole runs: any sequence of requests leaves the merged view where the plain
 * filesystem gets from the host tree by the requests that succeeded.
 */
module OverlayRun {
  import opened Paths
  import opened PlainFs
  import opened OverlayView
  import opened OverlayStorage
  import opened HostWalk
  import opened PlainLaws
  import opened OverlayOps
  import opened OverlayMkdir
  import opened OverlayRemove
  import opened OverlayRename
  import opened OverlayRead
  import opened OverlayList
  import opened RenamePlan

  datatype Request =
    | QueryExists(path: Path)
    | QueryIsFile(path: Path)
    | QueryIsDir(path: Path)
    | QueryIsSymlink(path: Path)
    | ReadFile(path: Path)
    | StatPath(path: Path)
    | ListDir(path: Path, vpath: Bytes)
    | OpenForRead(path: Path)
    | OpenForWrite(path: Path)
    | OpenForAppend(path: Path)
    | CreateNew(path: Path)
    | WriteFile(path: Path, data: Bytes)
    | AppendFile(path: Path, data: Bytes)
    | MakeDir(path: Path, parents: bool, existOk: bool)
    | RemoveFile(path: Path)
    | RemoveDir(path: Path)
    | RenamePath(path: Path, dst: Path)

  datatype Reply =
    | Done
    | Flag(b: bool)
    | Count(n: nat)
    | Data(bytes: Bytes)
    | Status(stat: StatResult)
    | Names(names: set<Name>)
    | Fail(error: Error)

  predicate IsQuery(req: Request)
  {
    match req
    case QueryExists(_) | QueryIsFile(_) | QueryIsDir(_) | QueryIsSymlink(_) => true
    case ReadFile(_) | StatPath(_) | ListDir(_, _) | OpenForRead(_) => true
    case _ => false
  }

  ghost function NodeAt(t: Tree, p: Path): Option<Node>
  {
    if p in t then Some(t[p]) else None
  }

  /** The plain filesystem's answer to a query. */
  ghost function PlainAnswer(t: Tree, req: Request): Reply
    requires IsQuery(req)
  {
    match req
    case QueryExists(p) => Flag(Describe(NodeAt(t, p)).resolves)
    case QueryIsFile(p) => Flag(Describe(NodeAt(t, p)).isFile)
    case QueryIsDir(p) => Flag(Describe(NodeAt(t, p)).isDir)
    case QueryIsSymlink(p) => Flag(Describe(NodeAt(t, p)).isSymlink)
    case ReadFile(p) =>
      (match Find(t, p)
       case Err(e) => Fail(e)
       case Ok(File(content)) => Data(content)
       case Ok(_) => Fail(IsADirectory))
    case StatPath(p) =>
      (match Find(t, p)
       case Err(e) => Fail(e)
       case Ok(File(content)) => Status(StatFile(if |content| > I64_MAX then I64_MAX else |content|))
       case Ok(_) => Status(StatDir))
    case ListDir(p, _) =>
      (match Find(t, p)
       case Err(e) => Fail(e)
       case Ok(File(_)) => Fail(NotADirectory)
       case Ok(_) => Names(Children(t, p).Keys))
    case OpenForRead(p) =>
      (match Find(t, p)
       case Err(e) => Fail(e)
       case Ok(File(_)) => Done
       case Ok(_) => Fail(IsADirectory))
  }

  /** What the plain filesystem's answers say of the tree. */
  lemma AnswersMean(t: Tree, p: Path, vpath: Bytes)
    requires WellFormed(t)
    ensures PlainAnswer(t, QueryExists(p)) == Flag(p in t && !t[p].Link?)
    ensures PlainAnswer(t, QueryIsFile(p)) == Flag(IsFileAt(t, p))
    ensures PlainAnswer(t, QueryIsDir(p)) == Flag(IsDirAt(t, p))
    ensures PlainAnswer(t, QueryIsSymlink(p)) == Flag(p in t && t[p].Link?)
    ensures forall bytes :: PlainAnswer(t, ReadFile(p)) == Data(bytes) <==> IsFileAt(t, p) && t[p].content == bytes
    ensures PlainAnswer(t, OpenForRead(p)) == Done <==> IsFileAt(t, p)
    ensures IsFileAt(t, p) && |t[p].content| <= I64_MAX ==> PlainAnswer(t, StatPath(p)) == Status(StatFile(|t[p].content|))
    ensures IsFileAt(t, p) && |t[p].content| > I64_MAX ==> PlainAnswer(t, StatPath(p)) == Status(StatFile(I64_MAX))
    ensures PlainAnswer(t, StatPath(p)) == Status(StatDir) <==> IsDirAt(t, p)
    ensures PlainAnswer(t, ListDir(p, vpath)).Names? <==> IsDirAt(t, p)
    ensures IsDirAt(t, p) ==>
      forall n :: n in PlainAnswer(t, ListDir(p, vpath)).names <==> p + [n] in t && t[p + [n]] != Link(false)
  {
    hide Children;
    FindMeans(t, p);
    forall n ensures n in Children(t, p) <==> p + [n] in t && t[p + [n]] != Link(false) { ChildrenMean(t, p, n); }
  }

  /** The plain filesystem's result for an update. */
  ghost function PlainUpdate(t: Tree, req: Request): Result<Tree>
    requires !IsQuery(req)
  {
    match req
    case OpenForWrite(p) => Write(t, p, [])
    case OpenForAppend(p) => OpenAppend(t, p)
    case CreateNew(p) => PlainFs.CreateExclusive(t, p)
    case WriteFile(p, data) => Write(t, p, data)
    case AppendFile(p, data) => Append(t, p, data)
    case MakeDir(p, parents, existOk) => PlainFs.Mkdir(t, p, parents, existOk)
    case RemoveFile(p) => PlainFs.Unlink(t, p)
    case RemoveDir(p) => PlainFs.Rmdir(t, p)
    case RenamePath(src, dst) => PlainFs.Rename(t, src, dst)
  }

  ghost function Success(req: Request): Reply
  {
    match req
    case WriteFile(_, data) => Count(|data|)
    case AppendFile(_, data) => Count(|data|)
    case _ => Done
  }

  /** One step of the plain filesystem. */
  ghost function PlainStep(t: Tree, req: Request): (Tree, Reply)
  {
    if IsQuery(req) then (t, PlainAnswer(t, req))
    else match PlainUpdate(t, req)
      case Ok(u) => (u, Success(req))
      case Err(e) => (t, Fail(e))
  }

  /**
   * The failures that are the overlay's own: a budget, a name whose host lookup
   * runs into a plain file, and a rename's choice of error for a missing source.
   */
  ghost predicate OwnFailure(host: Tree, entries: Entries, req: Request, e: Error)
  {
    || e in {MemoryLimit, WriteLimit}
    || (e == NotADirectory && Shadowed(host, entries, req.path))
    || (e == IsADirectory && req.RenamePath? && req.path !in View(host, entries))
  }

  /** A step answers as the plain filesystem does on the merged view, or fails changing nothing. */
  ghost predicate Faithful(host: Tree, before: Entries, req: Request, reply: Reply, after: Entries)
  {
    var plain := PlainStep(View(host, before), req);
    || (reply == plain.1 && View(host, after) == plain.0)
    || (reply.Fail? && OwnFailure(host, before, req, reply.error) && after == before)
  }

  // ---- the exact answer ------------------------------------------------------

  /** A mount at one moment: host tree, overlay entries, write counter and limits. */
  datatype Snapshot = Snapshot(
    host: Tree, entries: Entries, writeUsed: nat, writeLimit: Option<nat>, memoryLimit: nat)

  ghost function Snap(state: OverlayState, ctx: MountContext): Snapshot
    reads state, ctx
  {
    Snapshot(ctx.host, state.entries, ctx.writeUsed, ctx.writeLimit, ctx.memoryLimit)
  }

  ghost predicate Quota(s: Snapshot, bytes: nat)
  {
    s.writeLimit.Some? ==> SatAdd(s.writeUsed, bytes) <= s.writeLimit.value
  }

  ghost predicate Holds(s: Snapshot, entries: Entries)
  {
    Usage(entries) <= s.memoryLimit
  }

  /** The reply to a query: the plain filesystem's, except for a shadowed name and past the memory left. */
  ghost function QueryAnswer(s: Snapshot, req: Request): Reply
    requires IsQuery(req) && Holds(s, s.entries)
  {
    var plain := PlainAnswer(View(s.host, s.entries), req);
    var left := s.memoryLimit - Usage(s.entries);
    match req
    case QueryExists(_) | QueryIsFile(_) | QueryIsDir(_) | QueryIsSymlink(_) => plain
    case ReadFile(p) =>
      if Shadowed(s.host, s.entries, p) then Fail(NotADirectory)
      else if plain.Data? && |plain.bytes| > left then Fail(MemoryLimit) else plain
    case StatPath(p) => if Shadowed(s.host, s.entries, p) then Fail(NotADirectory) else plain
    case OpenForRead(p) => if Shadowed(s.host, s.entries, p) then Fail(NotADirectory) else plain
    case ListDir(p, vpath) =>
      if plain.Names? && !IterFits(s.host, s.entries, p, vpath, left) then Fail(MemoryLimit) else plain
  }

  ghost function WriteOutcome(s: Snapshot, p: Path, data: Bytes): Result<()>
  {
    if !Quota(s, |data|) then Err(WriteLimit)
    else PutAnswer(Write(View(s.host, s.entries), p, data), Shadowed(s.host, s.entries, p),
                   Holds(s, s.entries[p := FileEntry(data)]))
  }

  ghost function AppendOutcome(s: Snapshot, p: Path, data: Bytes): Result<()>
  {
    var plain := Append(View(s.host, s.entries), p, data);
    if plain.Err? then Err(plain.error)
    else if Shadowed(s.host, s.entries, p) then Err(NotADirectory)
    else if !Quota(s, AppendCharge(s.host, s.entries, s.writeLimit.Some?, p, data)) then Err(WriteLimit)
    else if !AppendFits(s.host, s.entries, s.memoryLimit, p, data) then Err(MemoryLimit)
    else Ok(())
  }

  ghost function OpenAppendOutcome(s: Snapshot, p: Path): Result<()>
  {
    var t := View(s.host, s.entries);
    if Shadowed(s.host, s.entries, p) then Err(NotADirectory)
    else if OpenAppend(t, p).Err? then Err(OpenAppend(t, p).error)
    else if p in t || Holds(s, s.entries[p := FileEntry([])]) then Ok(())
    else Err(MemoryLimit)
  }

  ghost function MkdirOutcome(s: Snapshot, p: Path, parents: bool, existOk: bool): Result<()>
  {
    var t := View(s.host, s.entries);
    var plain, made := PlainFs.Mkdir(t, p, parents, existOk), Created(t, p, parents);
    if Shadowed(s.host, s.entries, p) then Err(NotADirectory)
    else if plain.Err? then Err(plain.error)
    else if p in t then Ok(())
    else if !Quota(s, |made| * DIRECTORY_WRITE_BYTES) then Err(WriteLimit)
    else if !Holds(s, WithDirs(s.entries, made)) then Err(MemoryLimit)
    else Ok(())
  }

  ghost function RenameOutcome(s: Snapshot, src: Path, dst: Path): Result<()>
    requires Holds(s, s.entries)
  {
    match Refusal(s.host, s.entries, src, dst)
    case Some(e) => Err(e)
    case None => if RenameFits(s.host, s.entries, s.memoryLimit, src, dst) then Ok(()) else Err(MemoryLimit)
  }

  /** Whether an update succeeds, or how it fails, limits and shadowed names included. */
  ghost function UpdateOutcome(s: Snapshot, req: Request): Result<()>
    requires !IsQuery(req) && Holds(s, s.entries)
  {
    var t := View(s.host, s.entries);
    match req
    case OpenForWrite(p) => WriteOutcome(s, p, [])
    case WriteFile(p, data) => WriteOutcome(s, p, data)
    case AppendFile(p, data) => AppendOutcome(s, p, data)
    case OpenForAppend(p) => OpenAppendOutcome(s, p)
    case CreateNew(p) =>
      PutAnswer(PlainFs.CreateExclusive(t, p), Shadowed(s.host, s.entries, p), Holds(s, s.entries[p := FileEntry([])]))
    case MakeDir(p, parents, existOk) => MkdirOutcome(s, p, parents, existOk)
    case RemoveFile(p) =>
      if ParentError(t, p).Ok? && Shadowed(s.host, s.entries, p) then Err(NotADirectory)
      else RemoveAnswer(PlainFs.Unlink(t, p), s.entries, p, s.memoryLimit)
    case RemoveDir(p) => RemoveAnswer(PlainFs.Rmdir(t, p), s.entries, p, s.memoryLimit)
    case RenamePath(src, dst) => RenameOutcome(s, src, dst)
  }

  /** A rename whose host walk will meet a link, or run out of memory before it does. */
  ghost predicate RenameMeetsLink(s: Snapshot, req: Request)
  {
    && req.RenamePath? && Refusal(s.host, s.entries, req.path, req.dst) == None
    && LinkBelow(View(s.host, s.entries), req.path)
  }

  /** The reply to a request; only a rename that meets a link leaves a choice, which the listing order makes. */
  ghost predicate IsReply(s: Snapshot, req: Request, reply: Reply)
    requires Holds(s, s.entries)
  {
    if IsQuery(req) then reply == QueryAnswer(s, req)
    else if RenameMeetsLink(s, req) then
      || (reply == Fail(PathEscape)
          && PlanUsage(s.entries, req.path, req.dst) <= s.memoryLimit - Usage(s.entries))
      || (reply == Fail(MemoryLimit)
          && !PlanFits(s.host, s.entries, req.path, req.dst, s.memoryLimit - Usage(s.entries)))
    else reply == FailOr(UpdateOutcome(s, req), Success(req))
  }

  /** The entries a successful request leaves. */
  ghost function EntriesAfter(s: Snapshot, req: Request): Entries
  {
    var t := View(s.host, s.entries);
    match req
    case OpenForWrite(p) => s.entries[p := FileEntry([])]
    case WriteFile(p, data) => s.entries[p := FileEntry(data)]
    case AppendFile(p, data) => s.entries[p := FileEntry(Content(t, p) + data)]
    case OpenForAppend(p) => if p in t then s.entries else s.entries[p := FileEntry([])]
    case CreateNew(p) => s.entries[p := FileEntry([])]
    case MakeDir(p, parents, _) => if p in t then s.entries else WithDirs(s.entries, Created(t, p, parents))
    case RemoveFile(p) => s.entries[p := Deleted]
    case RemoveDir(p) => s.entries[p := Deleted]
    case RenamePath(src, dst) => Renamed(s.host, s.entries, src, dst)
    case _ => s.entries
  }

  /** What a successful request is charged under a write limit: bytes written or copied up, blocks of new directories. */
  ghost function Charge(s: Snapshot, req: Request): nat
  {
    var t := View(s.host, s.entries);
    match req
    case WriteFile(_, data) => |data|
    case AppendFile(p, data) => AppendCharge(s.host, s.entries, true, p, data)
    case MakeDir(p, parents, existOk) =>
      var made := PlainFs.Mkdir(t, p, parents, existOk);
      if made.Ok? then |made.value.Keys - t.Keys| * DIRECTORY_WRITE_BYTES else 0
    case _ => 0
  }

  ghost function After(s: Snapshot, req: Request): Snapshot
  {
    s.(entries := EntriesAfter(s, req), writeUsed := s.writeUsed + if s.writeLimit.Some? then Charge(s, req) else 0)
  }

  /** One request served: its exact reply and the exact state it leaves, the old one where it fails. */
  ghost predicate Served(s: Snapshot, req: Request, reply: Reply, after: Snapshot)
  {
    && Holds(s, s.entries) && IsReply(s, req, reply)
    && after == if reply.Fail? then s else After(s, req)
  }

  function FailOr<T>(r: Result<T>, ok: Reply): Reply
  {
    match r
    case Ok(_) => ok
    case Err(e) => Fail(e)
  }

  method Query(state: OverlayState, ctx: MountContext, req: Request) returns (reply: Reply)
    requires Valid(state, ctx) && IsQuery(req)
    ensures Served(Snap(state, ctx), req, reply, Snap(state, ctx))
    ensures Faithful(ctx.host, state.entries, req, reply, state.entries)
  {
    hide Inv, View, Find, Children, IterFits, Describe, Shadowed, Look;
    var entries, host, p := state.entries, ctx.host, req.path;
    LooksAt(host, entries, p);
    match req {
      case QueryExists(_) =>
        var b := Exists(entries, host, p);
        reply := Flag(b);
      case QueryIsFile(_) =>
        var b := IsFile(entries, host, p);
        reply := Flag(b);
      case QueryIsDir(_) =>
        var b := IsDir(entries, host, p);
        reply := Flag(b);
      case QueryIsSymlink(_) =>
        var b := IsSymlink(entries, host, p);
        reply := Flag(b);
      case ReadFile(_) =>
        FindNoLink(View(host, entries), p);
        var r := ReadBytes(state, ctx, p);
        reply := match r case Ok(bytes) => Data(bytes) case Err(e) => Fail(e);
      case StatPath(_) =>
        FindNoLink(View(host, entries), p);
        var r := Stat(entries, host, p);
        reply := match r case Ok(s) => Status(s) case Err(e) => Fail(e);
      case ListDir(_, vpath) =>
        FindNoLink(View(host, entries), p);
        var r := Iterdir(state, ctx, p, vpath);
        reply := match r case Ok(names) => Names(set n | n in names) case Err(e) => Fail(e);
      case OpenForRead(_) =>
        FindNoLink(View(host, entries), p);
        var r := OpenRead(entries, host, p);
        reply := FailOr(r, Done);
    }
  }

  lemma LooksAt(host: Tree, entries: Entries, p: Path)
    ensures NodeAt(View(host, entries), p) == Look(host, entries, p)
  {
    ViewAt(host, entries, p);
  }

  method UpdateWrite(state: OverlayState, ctx: MountContext, req: Request) returns (reply: Reply)
    requires Valid(state, ctx) && (req.OpenForWrite? || req.WriteFile?)
    modifies state, ctx
    ensures Valid(state, ctx)
    ensures Served(old(Snap(state, ctx)), req, reply, Snap(state, ctx))
    ensures reply.Fail? ==> unchanged(state) && unchanged(ctx)
    ensures Faithful(ctx.host, old(state.entries), req, reply, state.entries)
    ensures old(state.entries).Keys <= state.entries.Keys && old(ctx.writeUsed) <= ctx.writeUsed
  {
    hide Inv, View, Write, Shadowed, Usage;
    var data := if req.WriteFile? then req.data else [];
    var r := WriteBytes(state, ctx, req.path, data);
    reply := if r.Err? then Fail(r.error) else if req.WriteFile? then Count(r.value) else Done;
  }

  method UpdateAppend(state: OverlayState, ctx: MountContext, req: Request) returns (reply: Reply)
    requires Valid(state, ctx) && (req.OpenForAppend? || req.AppendFile? || req.CreateNew?)
    modifies state, ctx
    ensures Valid(state, ctx)
    ensures Served(old(Snap(state, ctx)), req, reply, Snap(state, ctx))
    ensures reply.Fail? ==> unchanged(state) && unchanged(ctx)
    ensures Faithful(ctx.host, old(state.entries), req, reply, state.entries)
    ensures old(state.entries).Keys <= state.entries.Keys && old(ctx.writeUsed) <= ctx.writeUsed
  {
    hide Inv, View, Append, OpenAppend, PlainFs.CreateExclusive, Shadowed, Usage, AppendFits, AppendCharge;
    match req {
      case OpenForAppend(p) =>
        var r := EnsureAppendTargetExists(state, ctx, p);
        reply := FailOr(r, Done);
      case CreateNew(p) =>
        var r := OverlayOps.CreateExclusive(state, ctx, p);
        reply := FailOr(r, Done);
      case AppendFile(p, data) =>
        var r := AppendBytes(state, ctx, p, data);
        reply := if r.Err? then Fail(r.error) else Count(r.value);
    }
  }

  lemma MkdirServed(s: Snapshot, req: Request, r: Result<()>, after: Snapshot)
    requires req.MakeDir? && Holds(s, s.entries) && r == MkdirOutcome(s, req.path, req.parents, req.existOk)
    requires r.Err? ==> after == s
    requires r.Ok? ==>
      var t, u := View(s.host, s.entries), View(s.host, after.entries);
      && Ok(u) == PlainFs.Mkdir(t, req.path, req.parents, req.existOk)
      && after.entries ==
         (if req.path in t then s.entries else WithDirs(s.entries, Created(t, req.path, req.parents)))
      && after == s.(entries := after.entries, writeUsed := s.writeUsed +
         if s.writeLimit.Some? then |u.Keys - t.Keys| * DIRECTORY_WRITE_BYTES else 0)
    ensures Served(s, req, FailOr(r, Done), after)
  {
    hide View, MkdirOutcome, Holds, PlainFs.Mkdir, WithDirs, Created;
  }

  lemma MkdirFaithful(s: Snapshot, req: Request, r: Result<()>, after: Entries)
    requires req.MakeDir? && r == MkdirOutcome(s, req.path, req.parents, req.existOk)
    requires r.Err? ==> after == s.entries
    requires r.Ok? ==> Ok(View(s.host, after)) == PlainFs.Mkdir(View(s.host, s.entries), req.path, req.parents, req.existOk)
    ensures Faithful(s.host, s.entries, req, FailOr(r, Done), after)
  {
    hide View, PlainFs.Mkdir, Shadowed, Created, Quota, Holds;
  }

  lemma MkdirPlain(s: Snapshot, p: Path, parents: bool, existOk: bool)
    requires MkdirOutcome(s, p, parents, existOk).Ok?
    ensures PlainFs.Mkdir(View(s.host, s.entries), p, parents, existOk).Ok?
  {
    hide View, PlainFs.Mkdir, Shadowed, Created, Quota, Holds;
  }

  method UpdateMkdir(state: OverlayState, ctx: MountContext, req: Request) returns (reply: Reply)
    requires Valid(state, ctx) && req.MakeDir?
    modifies state, ctx
    ensures Valid(state, ctx)
    ensures Served(old(Snap(state, ctx)), req, reply, Snap(state, ctx))
    ensures reply.Fail? ==> unchanged(state) && unchanged(ctx)
    ensures Faithful(ctx.host, old(state.entries), req, reply, state.entries)
    ensures old(state.entries).Keys <= state.entries.Keys && old(ctx.writeUsed) <= ctx.writeUsed
  {
    hide Inv, View, PlainFs.Mkdir, Shadowed, Usage, WithDirs, Created, Served, Faithful, After;
    ghost var s := Snap(state, ctx);
    DirsKeepKeys(state.entries, Created(View(ctx.host, state.entries), req.path, req.parents));
    var r := OverlayMkdir.Mkdir(state, ctx, req.path, req.parents, req.existOk);
    assert r == MkdirOutcome(s, req.path, req.parents, req.existOk);
    if r.Ok? { MkdirPlain(s, req.path, req.parents, req.existOk); }
    MkdirServed(s, req, r, Snap(state, ctx));
    MkdirFaithful(s, req, r, state.entries);
    reply := FailOr(r, Done);
  }

  method UpdateRemove(state: OverlayState, ctx: MountContext, req: Request) returns (reply: Reply)
    requires Valid(state, ctx) && (req.RemoveFile? || req.RemoveDir?)
    modifies state, ctx
    ensures Valid(state, ctx)
    ensures Served(old(Snap(state, ctx)), req, reply, Snap(state, ctx))
    ensures reply.Fail? ==> unchanged(state) && unchanged(ctx)
    ensures Faithful(ctx.host, old(state.entries), req, reply, state.entries)
    ensures old(state.entries).Keys <= state.entries.Keys && old(ctx.writeUsed) <= ctx.writeUsed
  {
    hide Inv, View, PlainFs.Unlink, PlainFs.Rmdir, Shadowed, Usage;
    var r;
    if req.RemoveFile? {
      r := OverlayRemove.Unlink(state, ctx, req.path);
    } else {
      r := OverlayRemove.Rmdir(state, ctx, req.path);
    }
    reply := FailOr(r, Done);
  }

  method UpdateRename(state: OverlayState, ctx: MountContext, req: Request) returns (reply: Reply)
    requires Valid(state, ctx) && req.RenamePath?
    modifies state, ctx
    ensures Valid(state, ctx)
    ensures Served(old(Snap(state, ctx)), req, reply, Snap(state, ctx))
    ensures reply.Fail? ==> unchanged(state) && unchanged(ctx)
    ensures Faithful(ctx.host, old(state.entries), req, reply, state.entries)
    ensures old(state.entries).Keys <= state.entries.Keys && old(ctx.writeUsed) <= ctx.writeUsed
  {
    hide Inv, View, PlainFs.Rename, Renamed, Shadowed, RenameFits, Refusal, LinkBelow, Move, PlanFits, PlanUsage;
    ghost var host, entries := ctx.host, state.entries;
    RefusalAnswers(host, entries, req.path, req.dst);
    RenameKeepsKeys(host, entries, req.path, req.dst);
    var r := OverlayRename.Rename(state, ctx, req.path, req.dst);
    reply := FailOr(r, Done);
  }

  /** Serves one request. */
  method Execute(state: OverlayState, ctx: MountContext, req: Request) returns (reply: Reply)
    requires Valid(state, ctx)
    modifies state, ctx
    ensures Valid(state, ctx)
    ensures Served(old(Snap(state, ctx)), req, reply, Snap(state, ctx))
    ensures reply.Fail? ==> unchanged(state) && unchanged(ctx)
    ensures Faithful(ctx.host, old(state.entries), req, reply, state.entries)
    ensures old(state.entries).Keys <= state.entries.Keys && old(ctx.writeUsed) <= ctx.writeUsed
  {
    hide Inv, View, Faithful, Served;
    if IsQuery(req) {
      reply := Query(state, ctx, req);
    } else if req.OpenForWrite? || req.WriteFile? {
      reply := UpdateWrite(state, ctx, req);
    } else if req.OpenForAppend? || req.AppendFile? || req.CreateNew? {
      reply := UpdateAppend(state, ctx, req);
    } else if req.RenamePath? {
      reply := UpdateRename(state, ctx, req);
    } else if req.MakeDir? {
      reply := UpdateMkdir(state, ctx, req);
    } else {
      reply := UpdateRemove(state, ctx, req);
    }
  }

  lemma DirsKeepKeys(entries: Entries, ds: set<Path>)
    ensures entries.Keys <= WithDirs(entries, ds).Keys
  {
  }

  /** How each refused rename compares with the plain filesystem's answer. */
  lemma RefusalAnswers(host: Tree, entries: Entries, src: Path, dst: Path)
    requires Inv(host, entries)
    ensures
      var refusal, plain := Refusal(host, entries, src, dst), PlainFs.Rename(View(host, entries), src, dst);
      match refusal
      case Some(e) => plain == Err(e) || OwnFailure(host, entries, RenamePath(src, dst), e)
      case None => LinkBelow(View(host, entries), src) ==> plain == Err(PathEscape)
  {
    hide View, Inv;
    RefusalIsPlain(host, entries, src, dst);
    ViewAt(host, entries, src);
    if Look(host, entries, src) != Some(Dir) { LinkBelowDirectory(host, entries, src); }
  }

  /** The tree reached from `t` by the first `n` requests, counting only those that succeeded. */
  ghost function Replay(t: Tree, reqs: seq<Request>, replies: seq<Reply>, n: nat): Tree
    requires n <= |reqs| && n <= |replies|
  {
    if n == 0 then t
    else
      var u := Replay(t, reqs, replies, n - 1);
      if replies[n - 1].Fail? then u else PlainStep(u, reqs[n - 1]).0
  }

  lemma {:induction false} ReplayPrefix(t: Tree, reqs: seq<Request>, a: seq<Reply>, b: seq<Reply>, n: nat)
    requires n <= |reqs| && n <= |a| <= |b| && a == b[..|a|]
    ensures Replay(t, reqs, a, n) == Replay(t, reqs, b, n)
  {
    if n > 0 {
      ReplayPrefix(t, reqs, a, b, n - 1);
      assert a[n - 1] == b[n - 1];
    }
  }

  /** The overlay's own failures, told from the host tree and the tree its requests have made of it. */
  ghost predicate OwnReply(host: Tree, t: Tree, req: Request, e: Error)
  {
    || e in {MemoryLimit, WriteLimit}
    || (e == NotADirectory && req.path !in t && FileAbove(host, req.path))
    || (e == IsADirectory && req.RenamePath? && req.path !in t)
  }

  /** The reply is the plain filesystem's, or a failure of the overlay's own. */
  ghost predicate Answers(host: Tree, t: Tree, req: Request, reply: Reply)
  {
    reply == PlainStep(t, req).1 || (reply.Fail? && OwnReply(host, t, req, reply.error))
  }

  /** A faithful step that succeeds is a plain step; one that fails leaves the view alone. */
  lemma FaithfulStep(host: Tree, before: Entries, req: Request, reply: Reply, after: Entries)
    requires Inv(host, before) && Faithful(host, before, req, reply, after)
    ensures View(host, after) == if reply.Fail? then View(host, before) else PlainStep(View(host, before), req).0
    ensures Answers(host, View(host, before), req, reply)
  {
    hide View, Inv, FileAbove;
    if Shadowed(host, before, req.path) { ShadowedIsAbsent(host, before, req.path); }
  }

  /** The mount after the first `n` requests. */
  ghost function Trace(s: Snapshot, reqs: seq<Request>, replies: seq<Reply>, n: nat): Snapshot
    requires n <= |reqs| && n <= |replies|
  {
    if n == 0 then s
    else
      var u := Trace(s, reqs, replies, n - 1);
      if replies[n - 1].Fail? then u else After(u, reqs[n - 1])
  }

  lemma {:induction false} TracePrefix(s: Snapshot, reqs: seq<Request>, a: seq<Reply>, b: seq<Reply>, n: nat)
    requires n <= |reqs| && n <= |a| <= |b| && a == b[..|a|]
    ensures Trace(s, reqs, a, n) == Trace(s, reqs, b, n)
  {
    hide After;
    if n > 0 {
      TracePrefix(s, reqs, a, b, n - 1);
      assert a[n - 1] == b[n - 1];
    }
  }

  /**
   * Request `i` of a run: on the mount the requests before it left, whose view
   * is the tree they make of the starting one, the reply is the exact one, and
   * is the plain filesystem's or a failure of the overlay's own.
   */
  ghost predicate Explained(s: Snapshot, reqs: seq<Request>, replies: seq<Reply>, i: nat)
    requires i < |reqs| && i < |replies|
  {
    var before, t := Trace(s, reqs, replies, i), Replay(View(s.host, s.entries), reqs, replies, i);
    && Holds(before, before.entries) && IsReply(before, reqs[i], replies[i])
    && View(before.host, before.entries) == t && before.host == s.host
    && Answers(s.host, t, reqs[i], replies[i])
  }

  lemma ExplainedPrefix(s: Snapshot, reqs: seq<Request>, a: seq<Reply>, b: seq<Reply>, i: nat)
    requires i < |reqs| && i < |a| <= |b| && a == b[..|a|] && Explained(s, reqs, a, i)
    ensures Explained(s, reqs, b, i)
  {
    hide View, Answers, IsReply, Holds;
    TracePrefix(s, reqs, a, b, i);
    ReplayPrefix(View(s.host, s.entries), reqs, a, b, i);
  }

  ghost predicate Succeeds(t: Tree, req: Request)
  {
    !PlainStep(t, req).1.Fail?
  }

  /** What the plain filesystem answers to `query` once `req` was served. */
  ghost function Then(t: Tree, req: Request, query: Request): Reply
    requires IsQuery(query)
  {
    PlainAnswer(PlainStep(t, req).0, query)
  }

  /** What is read after each request that puts a file. */
  lemma ReadAfter(t: Tree, p: Path, data: Bytes)
    requires WellFormed(t)
    ensures Succeeds(t, WriteFile(p, data)) ==>
      Then(t, WriteFile(p, data), ReadFile(p)) == Data(data) && PlainStep(t, WriteFile(p, data)).1 == Count(|data|)
    ensures Succeeds(t, OpenForWrite(p)) ==> Then(t, OpenForWrite(p), ReadFile(p)) == Data([])
    ensures Succeeds(t, CreateNew(p)) ==> p !in t && Then(t, CreateNew(p), ReadFile(p)) == Data([])
  {
    hide Write, PlainFs.CreateExclusive, Find;
    WriteReads(t, p, data);
    WriteReads(t, p, []);
    CreateReads(t, p);
  }

  /** An append reads as what was read before followed by the data; opening for it changes nothing. */
  lemma ReadAfterAppend(t: Tree, p: Path, data: Bytes)
    requires WellFormed(t)
    ensures
      var before := if IsFileAt(t, p) then PlainAnswer(t, ReadFile(p)) else Data([]);
      && before.Data?
      && (Succeeds(t, AppendFile(p, data)) ==>
        && Then(t, AppendFile(p, data), ReadFile(p)) == Data(before.bytes + data)
        && PlainStep(t, AppendFile(p, data)).1 == Count(|data|))
      && (Succeeds(t, OpenForAppend(p)) ==> Then(t, OpenForAppend(p), ReadFile(p)) == before)
  {
    hide Append, OpenAppend, Find;
    AppendReads(t, p, data);
    AppendReads(t, p, []);
    OpenAppendReads(t, p);
    if IsFileAt(t, p) { FindFile(t, p); }
    var none: Bytes := [];
    var was := if IsFileAt(t, p) then t[p].content else none;
    assert was + none == was;
    assert IsFileAt(t, p) ==> PlainAnswer(t, ReadFile(p)) == Data(was);
  }

  lemma MadeAfter(t: Tree, p: Path, parents: bool, existOk: bool)
    requires WellFormed(t)
    ensures Succeeds(t, MakeDir(p, parents, existOk)) ==> Then(t, MakeDir(p, parents, existOk), QueryIsDir(p)) == Flag(true)
  {
    hide PlainFs.Mkdir, OnlyDirsOnWay;
    MkdirMeans(t, p, parents, existOk);
    assert OnWay(p, p);
  }

  lemma GoneAfter(t: Tree, p: Path)
    requires WellFormed(t)
    ensures Succeeds(t, RemoveFile(p)) <==> PlainAnswer(t, QueryIsFile(p)) == Flag(true)
    ensures Succeeds(t, RemoveFile(p)) ==> Then(t, RemoveFile(p), QueryExists(p)) == Flag(false)
    ensures Succeeds(t, RemoveDir(p)) ==>
      PlainAnswer(t, QueryIsDir(p)) == Flag(true) && Then(t, RemoveDir(p), QueryExists(p)) == Flag(false)
  {
    hide ChainError, Empty;
  }

  lemma RenamedAfter(t: Tree, src: Path, dst: Path)
    requires WellFormed(t) && Succeeds(t, RenamePath(src, dst))
    ensures Then(t, RenamePath(src, dst), QueryIsFile(dst)) == PlainAnswer(t, QueryIsFile(src))
    ensures Then(t, RenamePath(src, dst), QueryIsDir(dst)) == PlainAnswer(t, QueryIsDir(src))
    ensures src != dst && !(dst <= src) ==> Then(t, RenamePath(src, dst), QueryExists(src)) == Flag(false)
  {
    hide PlainFs.Rename, Empty, LinkBelow;
    RenameMeans(t, src, dst);
  }

  /** Below a renamed directory every file reads at its new path as it did at its old one. */
  lemma ReadMoved(t: Tree, src: Path, dst: Path, p: Path)
    requires WellFormed(t) && Succeeds(t, RenamePath(src, dst)) && src <= p && IsFileAt(t, p)
    ensures Then(t, RenamePath(src, dst), ReadFile(Rebase(p, src, dst))) == PlainAnswer(t, ReadFile(p))
  {
    hide Move, ChainError, LinkBelow, Empty;
    MoveReads(t, src, dst, p);
  }

  /** Requests that may change what is at `p`, where a file is. */
  ghost predicate Touches(req: Request, p: Path)
  {
    match req
    case OpenForWrite(q) => q == p
    case WriteFile(q, _) => q == p
    case AppendFile(q, _) => q == p
    case RemoveFile(q) => q == p
    case RenamePath(src, dst) => src <= p || dst <= p
    case _ => false
  }

  /** Any other request leaves the file as it is. */
  lemma FileStays(t: Tree, req: Request, p: Path)
    requires IsFileAt(t, p) && !Touches(req, p)
    ensures IsFileAt(PlainStep(t, req).0, p) && PlainStep(t, req).0[p] == t[p]
  {
    hide ChainError, Move, MissingAbove, MakeChainError;
    match req {
      case RenamePath(src, dst) => MoveElsewhere(t, src, dst, p);
      case MakeDir(q, parents, _) => forall d ensures d in MissingAbove(t, q) ==> d !in t { MissingMeans(t, q, d); }
      case _ =>
    }
  }

  lemma {:induction false} ReplayStays(t: Tree, reqs: seq<Request>, replies: seq<Reply>, i: nat, j: nat, p: Path)
    requires i <= j <= |reqs| && j <= |replies| && IsFileAt(Replay(t, reqs, replies, i), p)
    requires forall k :: i <= k < j ==> replies[k].Fail? || !Touches(reqs[k], p)
    ensures IsFileAt(Replay(t, reqs, replies, j), p)
    ensures Replay(t, reqs, replies, j)[p] == Replay(t, reqs, replies, i)[p]
  {
    hide PlainStep, Touches;
    if i < j {
      ReplayStays(t, reqs, replies, i, j - 1, p);
      if !replies[j - 1].Fail? { FileStays(Replay(t, reqs, replies, j - 1), reqs[j - 1], p); }
    }
  }

  /** A write's bytes are what is read later, unless something touched the file in between. */
  ghost predicate ReadsBack(reqs: seq<Request>, replies: seq<Reply>, i: nat, j: nat)
    requires i < j < |reqs| == |replies|
  {
    && reqs[i].WriteFile? && !replies[i].Fail? && reqs[j] == ReadFile(reqs[i].path) && !replies[j].Fail?
    && (forall k :: i < k < j ==> replies[k].Fail? || !Touches(reqs[k], reqs[i].path)) ==>
      replies[j] == Data(reqs[i].data)
  }

  lemma RunReads(s: Snapshot, reqs: seq<Request>, replies: seq<Reply>, i: nat, j: nat)
    requires i < j < |reqs| == |replies| && Explained(s, reqs, replies, i) && Explained(s, reqs, replies, j)
    ensures ReadsBack(reqs, replies, i, j)
  {
    hide View, IsReply, Holds, ChainError, Trace, Touches;
    var t, p := View(s.host, s.entries), reqs[i].path;
    if reqs[i].WriteFile? && !replies[i].Fail? && reqs[j] == ReadFile(p) && !replies[j].Fail?
       && forall k :: i < k < j ==> replies[k].Fail? || !Touches(reqs[k], p) {
      assert Replay(t, reqs, replies, i + 1) == PlainStep(Replay(t, reqs, replies, i), reqs[i]).0;
      ReplayStays(t, reqs, replies, i + 1, j, p);
    }
  }

  /** What holds of a run in progress. */
  ghost predicate Ran(s: Snapshot, reqs: seq<Request>, replies: seq<Reply>, now: Snapshot)
  {
    && |replies| <= |reqs| && now.host == s.host
    && now == Trace(s, reqs, replies, |replies|)
    && View(now.host, now.entries) == Replay(View(s.host, s.entries), reqs, replies, |replies|)
    && forall i :: 0 <= i < |replies| ==> Explained(s, reqs, replies, i)
  }

  lemma RanOn(s: Snapshot, reqs: seq<Request>, replies: seq<Reply>, before: Snapshot, reply: Reply, after: Snapshot)
    requires |replies| < |reqs| && Ran(s, reqs, replies, before) && Inv(before.host, before.entries)
    requires Served(before, reqs[|replies|], reply, after)
    requires Faithful(before.host, before.entries, reqs[|replies|], reply, after.entries)
    ensures Ran(s, reqs, replies + [reply], after)
  {
    hide View, Inv, IsReply, PlainStep, Faithful, Holds, Answers, EntriesAfter, Charge;
    var n, more := |replies|, replies + [reply];
    FaithfulStep(before.host, before.entries, reqs[n], reply, after.entries);
    TracePrefix(s, reqs, replies, more, n);
    ReplayPrefix(View(s.host, s.entries), reqs, replies, more, n);
    forall i | 0 <= i < |more| ensures Explained(s, reqs, more, i) {
      if i < n { ExplainedPrefix(s, reqs, replies, more, i); }
    }
  }

  /** Serves a sequence of requests. */
  method Run(state: OverlayState, ctx: MountContext, reqs: seq<Request>) returns (replies: seq<Reply>)
    requires Valid(state, ctx)
    modifies state, ctx
    ensures Valid(state, ctx) && |replies| == |reqs|
    ensures Ran(old(Snap(state, ctx)), reqs, replies, Snap(state, ctx))
    ensures old(state.entries).Keys <= state.entries.Keys && old(ctx.writeUsed) <= ctx.writeUsed
  {
    hide Inv, View, Faithful, PlainStep, Served, Explained, Replay, Trace;
    ghost var s := Snap(state, ctx);
    replies := [];
    NothingRan(s, reqs);
    for n := 0 to |reqs|
      invariant Valid(state, ctx) && |replies| == n && Ran(s, reqs, replies, Snap(state, ctx))
      invariant old(state.entries).Keys <= state.entries.Keys && old(ctx.writeUsed) <= ctx.writeUsed
    {
      ghost var before := Snap(state, ctx);
      var reply := Execute(state, ctx, reqs[n]);
      RanOn(s, reqs, replies, before, reply, Snap(state, ctx));
      replies := replies + [reply];
    }
  }

  lemma NothingRan(s: Snapshot, reqs: seq<Request>)
    ensures Ran(s, reqs, [], s)
  {
    hide View;
  }

  /**
   * A mount's whole life: from a fresh overlay over a host tree, whatever the
   * requests, every reply is the exact one on the mount the earlier requests
   * left, and the merged view is what the plain filesystem makes of the host
   * tree by the requests that succeeded.
   */
  method RunMount(host: Tree, writeLimit: Option<nat>, memoryLimit: nat, reqs: seq<Request>)
    returns (state: OverlayState, ctx: MountContext, replies: seq<Reply>)
    requires WellFormed(host) && memoryLimit < HALF_U64 && (writeLimit.Some? ==> writeLimit.value < U64_MAX)
    ensures ctx.host == host && Valid(state, ctx) && |replies| == |reqs|
    ensures Merged(state, ctx) == Replay(host, reqs, replies, |reqs|)
    ensures Snap(state, ctx) == Trace(Fresh(host, writeLimit, memoryLimit), reqs, replies, |reqs|)
    ensures forall i :: 0 <= i < |reqs| ==> Explained(Fresh(host, writeLimit, memoryLimit), reqs, replies, i)
    ensures forall i, j :: 0 <= i < j < |reqs| ==> ReadsBack(reqs, replies, i, j)
  {
    hide Inv, View, Explained, Replay, Trace, ReadsBack;
    state := new OverlayState();
    ctx := new MountContext(host, writeLimit, memoryLimit);
    FreshView(host);
    replies := Run(state, ctx, reqs);
    forall i, j | 0 <= i < j < |reqs| ensures ReadsBack(reqs, replies, i, j) {
      RunReads(Fresh(host, writeLimit, memoryLimit), reqs, replies, i, j);
    }
  }

  /** With a limit below the word's top the quota is the plain comparison of bytes. */
  lemma QuotaExact(s: Snapshot, bytes: nat)
    requires s.writeLimit.Some? && s.writeLimit.value < U64_MAX
    ensures Quota(s, bytes) <==> s.writeUsed + bytes <= s.writeLimit.value
  {
  }

  ghost function Fresh(host: Tree, writeLimit: Option<nat>, memoryLimit: nat): Snapshot
  {
    Snapshot(host, map[], 0, writeLimit, memoryLimit)
  }

  // ---- where the overlay refuses what the plain filesystem allows ---------------

  /** The view after a host file was removed and a directory made in its place. */
  lemma ReplacedView(f: Name, host: Tree)
    requires host == map[[] := Dir, [f] := File([])]
    ensures View(host, map[]) == host && WellFormed(host)
    ensures View(host, map[[f] := Deleted]) == map[[] := Dir]
    ensures View(host, map[[f] := DirEntry]) == map[[] := Dir, [f] := Dir]
  {
    assert View(host, map[]) == host;
    assert View(host, map[[f] := Deleted]) == map[[] := Dir];
    assert View(host, map[[f] := DirEntry]) == map[[] := Dir, [f] := Dir];
  }

  lemma RemoveReplaced(f: Name, s0: Snapshot)
    requires s0.host == map[[] := Dir, [f] := File([])] && s0.entries == map[] && s0.writeLimit == None
    requires Holds(s0, map[[f] := Deleted])
    ensures Holds(s0, s0.entries) && UpdateOutcome(s0, RemoveFile([f])) == Ok(())
    ensures After(s0, RemoveFile([f])) == s0.(entries := map[[f] := Deleted])
  {
    hide View, Usage;
    ReplacedView(f, s0.host);
    NoUsage();
    assert Parent([f]) == [];
  }

  lemma MakeReplacement(f: Name, s1: Snapshot)
    requires s1.host == map[[] := Dir, [f] := File([])] && s1.entries == map[[f] := Deleted] && s1.writeLimit == None
    requires Holds(s1, map[[f] := DirEntry])
    ensures MkdirOutcome(s1, [f], false, false) == Ok(())
    ensures EntriesAfter(s1, MakeDir([f], false, false)) == map[[f] := DirEntry]
  {
    hide View, Usage;
    ReplacedView(f, s1.host);
    assert Parent([f]) == [];
    assert WithDirs(s1.entries, {[f]}) == map[[f] := DirEntry];
  }

  lemma WriteBelowReplacement(f: Name, x: Name, data: Bytes, s2: Snapshot)
    requires s2.host == map[[] := Dir, [f] := File([])] && s2.entries == map[[f] := DirEntry] && s2.writeLimit == None
    ensures WriteOutcome(s2, [f, x], data) == Err(NotADirectory)
    ensures Write(View(s2.host, s2.entries), [f, x], data).Ok?
  {
    hide View, Usage;
    var host, p := s2.host, [f, x];
    ReplacedView(f, host);
    assert p[..1] == [f] && Parent(p) == [f];
    assert FileAbove(host, p);
    var t := View(host, s2.entries);
    assert ChainError(t, []).Ok? && t[[f]] == Dir;
    assert ChainError(t, [f]).Ok?;
  }

  /** Three requests on a fresh mount: the host file goes, a directory takes its place, and nothing can be written into it. */
  lemma ReplacedSteps(f: Name, x: Name, data: Bytes, s0: Snapshot)
    requires s0.host == map[[] := Dir, [f] := File([])] && s0.entries == map[] && s0.writeLimit == None
    requires Holds(s0, map[[f] := Deleted]) && Holds(s0, map[[f] := DirEntry])
    ensures
      var s1 := After(s0, RemoveFile([f]));
      var s2 := After(s1, MakeDir([f], false, false));
      && Holds(s0, s0.entries) && UpdateOutcome(s0, RemoveFile([f])) == Ok(())
      && Holds(s1, s1.entries) && UpdateOutcome(s1, MakeDir([f], false, false)) == Ok(())
      && Holds(s2, s2.entries) && UpdateOutcome(s2, WriteFile([f, x], data)) == Err(NotADirectory)
      && Write(View(s2.host, s2.entries), [f, x], data).Ok?
  {
    hide View, Usage, MkdirOutcome, WriteOutcome, EntriesAfter, Charge;
    RemoveReplaced(f, s0);
    var s1 := After(s0, RemoveFile([f]));
    MakeReplacement(f, s1);
    WriteBelowReplacement(f, x, data, After(s1, MakeDir([f], false, false)));
  }

  lemma NoUsage()
    ensures Usage(map[]) == 0
  {
  }

  method ReplacedFile(f: Name, x: Name, data: Bytes, memoryLimit: nat) returns (replies: seq<Reply>)
    requires memoryLimit < HALF_U64
    requires Usage(map[[f] := Deleted]) <= memoryLimit && Usage(map[[f] := DirEntry]) <= memoryLimit
    ensures replies == [Done, Done, Fail(NotADirectory)]
  {
    hide View, Usage, UpdateOutcome, Explained, Answers, Replay, After, Trace, ReplyAt, Write, ReadsBack;
    var host: Tree := map[[] := Dir, [f] := File([])];
    var reqs := [RemoveFile([f]), MakeDir([f], false, false), WriteFile([f, x], data)];
    ReplacedView(f, host);
    ghost var s0 := Fresh(host, None, memoryLimit);
    ReplacedSteps(f, x, data, s0);
    var state, ctx;
    state, ctx, replies := RunMount(host, None, memoryLimit, reqs);
    forall i | 0 <= i < 3 ensures ReplyAt(s0, reqs, replies, i) { ExplainedReply(s0, reqs, replies, i); }
    ReplacedReplies(s0, reqs, replies);
  }

  /** The replies follow from the outcomes, one request at a time. */
  lemma ReplacedReplies(s0: Snapshot, reqs: seq<Request>, replies: seq<Reply>)
    requires |reqs| == |replies| == 3 && reqs[0].RemoveFile? && reqs[1].MakeDir? && reqs[2].WriteFile?
    requires ReplyAt(s0, reqs, replies, 0) && ReplyAt(s0, reqs, replies, 1) && ReplyAt(s0, reqs, replies, 2)
    requires
      var s1 := After(s0, reqs[0]);
      var s2 := After(s1, reqs[1]);
      && Holds(s0, s0.entries) && UpdateOutcome(s0, reqs[0]) == Ok(())
      && Holds(s1, s1.entries) && UpdateOutcome(s1, reqs[1]) == Ok(())
      && Holds(s2, s2.entries) && UpdateOutcome(s2, reqs[2]) == Err(NotADirectory)
    ensures replies == [Done, Done, Fail(NotADirectory)]
  {
    hide Usage, UpdateOutcome, After, Holds, IsReply;
    UpdateReply(s0, reqs[0], replies[0]);
    var s1 := After(s0, reqs[0]);
    assert Trace(s0, reqs, replies, 0) == s0 && Trace(s0, reqs, replies, 1) == s1;
    UpdateReply(s1, reqs[1], replies[1]);
    var s2 := After(s1, reqs[1]);
    assert Trace(s0, reqs, replies, 2) == s2;
    UpdateReply(s2, reqs[2], replies[2]);
  }

  lemma UpdateReply(s: Snapshot, req: Request, reply: Reply)
    requires Holds(s, s.entries) && IsReply(s, req, reply) && !IsQuery(req) && !req.RenamePath?
    ensures reply == FailOr(UpdateOutcome(s, req), Success(req))
  {
    hide UpdateOutcome, Holds;
  }

  ghost predicate ReplyAt(s: Snapshot, reqs: seq<Request>, replies: seq<Reply>, i: nat)
    requires i < |reqs| && i < |replies|
  {
    var before := Trace(s, reqs, replies, i);
    Holds(before, before.entries) && IsReply(before, reqs[i], replies[i])
  }

  lemma ExplainedReply(s: Snapshot, reqs: seq<Request>, replies: seq<Reply>, i: nat)
    requires i < |reqs| && i < |replies| && Explained(s, reqs, replies, i)
    ensures ReplyAt(s, reqs, replies, i)
  {
    hide View, IsReply, Answers;
  }

  /** Renaming a name that was never there onto a directory: "is a directory", where the plain filesystem says "not found". */
  lemma MissingSource(d: Name, x: Name, memoryLimit: nat)
    requires d != x
    ensures
      var host: Tree := map[[] := Dir, [d] := Dir];
      var s := Fresh(host, None, memoryLimit);
      && WellFormed(host) && Holds(s, s.entries)
      && UpdateOutcome(s, RenamePath([x], [d])) == Err(IsADirectory)
      && PlainFs.Rename(host, [x], [d]) == Err(NotFound) && View(host, s.entries) == host
  {
    hide Usage, View;
    var host: Tree := map[[] := Dir, [d] := Dir];
    NoUsage();
    assert WellFormed(host);
    FreshView(host);
    assert Parent([x]) == [] && Parent([d]) == [] && [x][0] == x && [d][0] == d;
    assert [x] !in host;
  }
}
