/**
 * What the reference filesystem's operations mean for one another: what a read
 * gives after a write, what undoes what, and when each operation succeeds.
 */
module PlainLaws {
  import opened Paths
  import opened PlainFs

  ghost predicate IsDirAt(t: Tree, p: Path)
  {
    p in t && t[p].Dir?
  }

  ghost predicate IsFileAt(t: Tree, p: Path)
  {
    p in t && t[p].File?
  }

  /** `a` is `p` or one of its ancestors. */
  ghost predicate OnWay(a: Path, p: Path)
  {
    a <= p
  }

  lemma OnWayParent(a: Path, p: Path)
    requires p != []
    ensures OnWay(a, p) <==> a == p || OnWay(a, Parent(p))
    ensures OnWay(a, Parent(p)) ==> a < p
  {
    if a <= p && a != p { assert a == Parent(p)[..|a|]; }
  }

  /** Every proper ancestor is a directory. */
  ghost predicate DirsDownTo(t: Tree, p: Path)
  {
    forall d :: d < p ==> IsDirAt(t, d)
  }

  ghost predicate LinkOnWay(t: Tree, p: Path)
  {
    exists a :: OnWay(a, p) && a in t && t[a].Link?
  }

  ghost predicate FileOnWay(t: Tree, p: Path)
  {
    exists a :: OnWay(a, p) && a in t && t[a].File?
  }

  ghost predicate OnlyDirsOnWay(t: Tree, p: Path)
  {
    forall a :: OnWay(a, p) && a in t ==> t[a].Dir?
  }

  lemma DirsAboveNode(t: Tree, p: Path)
    requires WellFormed(t) && p in t
    ensures DirsDownTo(t, p)
  {
  }

  /** A parent chain is entered exactly through directories, refused for a link, and otherwise not found. */
  lemma ParentMeans(t: Tree, p: Path)
    requires WellFormed(t)
    ensures ParentError(t, p) ==
            if DirsDownTo(t, p) then Ok(())
            else if LinkOnWay(t, Parent(p)) then Err(PathEscape) else Err(NotFound)
    ensures p == [] ==> DirsDownTo(t, p)
  {
    if p != [] {
      var q := Parent(p);
      ChainMeans(t, q);
      assert q < p;
      if IsDirAt(t, q) {
        forall d | d < p ensures IsDirAt(t, d) { assert d == q || d < q; }
      }
    }
  }

  lemma {:induction false} ChainMeans(t: Tree, d: Path)
    requires WellFormed(t)
    ensures ChainError(t, d).Ok? <==> IsDirAt(t, d)
    ensures ChainError(t, d) == Err(PathEscape) <==> LinkOnWay(t, d)
    ensures ChainError(t, d).Err? ==> ChainError(t, d).error in {PathEscape, NotFound}
  {
    if d == [] {
      forall a | OnWay(a, d) ensures a == [] {}
    } else {
      var q := Parent(d);
      ChainMeans(t, q);
      forall a ensures (OnWay(a, d) <==> a == d || OnWay(a, q)) && (OnWay(a, q) ==> a < d) { OnWayParent(a, d); }
      assert q < d && OnWay(d, d) && OnWay(q, q);
    }
  }

  /** Making a chain of directories is refused exactly for a link or a file on it. */
  lemma {:induction false} MakeChainMeans(t: Tree, p: Path)
    requires WellFormed(t)
    ensures MakeChainError(t, p) ==
            if OnlyDirsOnWay(t, p) then Ok(()) else if LinkOnWay(t, p) then Err(PathEscape) else Err(NotADirectory)
    ensures !(LinkOnWay(t, p) && FileOnWay(t, p))
  {
    if p == [] {
      forall a | OnWay(a, p) ensures a == [] {}
    } else {
      var q := Parent(p);
      MakeChainMeans(t, q);
      forall a ensures (OnWay(a, p) <==> a == p || OnWay(a, q)) && (OnWay(a, q) ==> a < p) { OnWayParent(a, p); }
      assert OnWay(p, p);
    }
  }

  // ---- reading ---------------------------------------------------------------------

  /** A lookup finds exactly the node at the path, and says why not otherwise. */
  lemma FindMeans(t: Tree, p: Path)
    requires WellFormed(t)
    ensures forall n :: Find(t, p) == Ok(n) <==> p in t && t[p] == n && !n.Link?
    ensures Find(t, p) == Err(PathEscape) <==> LinkOnWay(t, p)
    ensures Find(t, p).Err? ==> Find(t, p).error in {PathEscape, NotFound}
  {
    ParentMeans(t, p);
    assert OnWay(p, p);
    if p != [] {
      forall a ensures (OnWay(a, p) <==> a == p || OnWay(a, Parent(p))) && (OnWay(a, Parent(p)) ==> a < p) {
        OnWayParent(a, p);
      }
      if p !in t && DirsDownTo(t, p) {
        forall a | OnWay(a, Parent(p)) ensures IsDirAt(t, a) {}
      }
    }
  }

  lemma FindFile(t: Tree, p: Path)
    requires IsFileAt(t, p)
    ensures Find(t, p) == Ok(t[p])
  {
  }

  /** The four predicates of a path, by what a lookup finds. */
  lemma DescribeMeans(t: Tree, p: Path)
    requires WellFormed(t)
    ensures
      var info := Describe(if p in t then Some(t[p]) else None);
      && (info.resolves <==> Find(t, p).Ok?)
      && (info.isFile <==> Find(t, p).Ok? && Find(t, p).value.File?)
      && (info.isDir <==> Find(t, p).Ok? && Find(t, p).value.Dir?)
      && (info.isSymlink <==> p in t && t[p].Link?)
  {
  }

  /** A listing shows each child under its name, as a lookup of it describes it, but for links that lead outside. */
  lemma ChildrenMean(t: Tree, d: Path, n: Name)
    ensures n in Children(t, d) <==> d + [n] in t && t[d + [n]] != Link(false)
    ensures n in Children(t, d) ==> Children(t, d)[n] == Describe(Some(t[d + [n]]))
  {
  }

  // ---- files -------------------------------------------------------------------------

  /** Nothing but the node at `p` differs. */
  ghost predicate SameElsewhere(t: Tree, u: Tree, p: Path)
  {
    forall q :: q != p ==> (q in t <==> q in u) && (q in t ==> t[q] == u[q])
  }

  /** A write succeeds exactly below directories on nothing or a file; then the data is read back and nothing else changed. */
  lemma WriteReads(t: Tree, p: Path, data: Bytes)
    requires WellFormed(t)
    ensures Write(t, p, data).Ok? <==> DirsDownTo(t, p) && (p in t ==> t[p].File?)
    ensures Write(t, p, data).Ok? ==>
      Find(Write(t, p, data).value, p) == Ok(File(data)) && SameElsewhere(t, Write(t, p, data).value, p)
    ensures Write(t, p, data) == Err(IsADirectory) <==> IsDirAt(t, p)
  {
    ParentMeans(t, p);
    FindMeans(t, p);
    if p in t { DirsAboveNode(t, p); }
  }

  /** An append reads as what was there followed by the data. */
  lemma AppendReads(t: Tree, p: Path, data: Bytes)
    requires WellFormed(t)
    ensures Append(t, p, data).Ok? <==> Write(t, p, data).Ok?
    ensures Append(t, p, data).Err? ==> Append(t, p, data) == Write(t, p, data)
    ensures Append(t, p, data).Ok? ==>
      && SameElsewhere(t, Append(t, p, data).value, p)
      && Find(Append(t, p, data).value, p) ==
         Ok(File((if IsFileAt(t, p) then t[p].content else []) + data))
  {
    WriteReads(t, p, data);
  }

  /** Appending in two pieces is appending both at once. */
  lemma AppendTwice(t: Tree, p: Path, a: Bytes, b: Bytes)
    requires WellFormed(t) && Append(t, p, a).Ok? && p != []
    ensures Append(Append(t, p, a).value, p, b) == Append(t, p, a + b)
  {
    var u := Append(t, p, a).value;
    WriteReads(t, p, a);
    FileIsEmpty(t, p);
    ParentMeans(t, p);
    var was := if p in t then t[p].content else [];
    assert u == t[p := File(was + a)];
    PutKeepsForm(t, p, File(was + a));
    ParentMeans(u, p);
    assert was + a + b == was + (a + b);
    assert u[p := File(was + a + b)] == t[p := File(was + (a + b))];
  }

  /** Creating succeeds exactly where nothing is below directories, and leaves an empty file. */
  lemma CreateReads(t: Tree, p: Path)
    requires WellFormed(t)
    ensures CreateExclusive(t, p).Ok? <==> DirsDownTo(t, p) && p !in t
    ensures CreateExclusive(t, p).Ok? ==> CreateExclusive(t, p) == Write(t, p, [])
    ensures CreateExclusive(t, p) == Err(AlreadyExists) <==> p in t
  {
    ParentMeans(t, p);
    if p in t { DirsAboveNode(t, p); }
  }

  /** Opening for append leaves the tree an append of nothing would, and never truncates. */
  lemma OpenAppendReads(t: Tree, p: Path)
    requires WellFormed(t)
    ensures OpenAppend(t, p) == Append(t, p, [])
  {
    ParentMeans(t, p);
    var none: Bytes := [];
    assert none + none == none;
    if p in t {
      DirsAboveNode(t, p);
      if t[p].File? {
        assert t[p].content + none == t[p].content;
        assert t[p := t[p]] == t;
      }
    }
  }

  /** Only a file is unlinked; then nothing is there, and writing its content back gives the tree back. */
  lemma UnlinkUndone(t: Tree, p: Path)
    requires WellFormed(t)
    ensures Unlink(t, p).Ok? <==> IsFileAt(t, p)
    ensures Unlink(t, p).Ok? ==>
      && Find(Unlink(t, p).value, p) == Err(NotFound) && SameElsewhere(t, Unlink(t, p).value, p)
      && Write(Unlink(t, p).value, p, t[p].content) == Ok(t)
  {
    if Unlink(t, p).Ok? {
      var u := t - {p};
      FileIsEmpty(t, p);
      DropKeepsForm(t, p);
      ParentMeans(t, p);
      ParentMeans(u, p);
      FindMeans(u, p);
      assert DirsDownTo(u, p);
      assert u[p := t[p]] == t;
    }
  }

  // ---- directories --------------------------------------------------------------------

  /** Only an empty directory that is not the root is removed, and making it again gives the tree back. */
  lemma RmdirUndone(t: Tree, p: Path)
    requires WellFormed(t)
    ensures Rmdir(t, p).Ok? <==> p != [] && IsDirAt(t, p) && forall n :: p + [n] !in t
    ensures Rmdir(t, p).Ok? ==>
      && Find(Rmdir(t, p).value, p) == Err(NotFound) && SameElsewhere(t, Rmdir(t, p).value, p)
      && Mkdir(Rmdir(t, p).value, p, false, false) == Ok(t)
  {
    if forall n :: p + [n] !in t { NoChildren(t, p); }
    if Empty(t, p) { assert forall n :: p < p + [n]; }
    if Rmdir(t, p).Ok? {
      var u := t - {p};
      DropKeepsForm(t, p);
      ParentMeans(u, p);
      FindMeans(u, p);
      assert DirsDownTo(u, p);
      assert AddDirs(u, {p}) == t;
    }
  }

  lemma NoChildren(t: Tree, p: Path)
    requires WellFormed(t) && forall n :: p + [n] !in t
    ensures Empty(t, p)
  {
    forall q | q in t ensures !(p < q) {
      if p < q {
        AtOrBelowChild(p, q[|p|], q);
      }
    }
  }

  /** Every path at or above `p` holding nothing is made, and no other. */
  lemma {:induction false} MissingMeans(t: Tree, p: Path, d: Path)
    ensures d in MissingAbove(t, p) <==> d <= p && d != [] && d !in t
  {
    if p != [] {
      MissingMeans(t, Parent(p), d);
      if d <= p && d != p { assert d == Parent(p)[..|d|]; }
    } else {
      assert d <= p ==> d == [];
    }
  }

  /**
   * A directory is made where nothing is: below directories, or with parents
   * below whatever directories there are; an existing one is accepted if asked.
   * It is then a directory, as is everything above it, and nothing that was
   * there changed.
   */
  lemma MkdirMeans(t: Tree, p: Path, parents: bool, existOk: bool)
    requires WellFormed(t)
    ensures
      var r := Mkdir(t, p, parents, existOk);
      && (r.Ok? <==> if p in t then t[p].Dir? && existOk
                     else if parents then OnlyDirsOnWay(t, p) else DirsDownTo(t, p))
      && (r.Ok? ==>
        && (forall a :: OnWay(a, p) ==> IsDirAt(r.value, a))
        && (forall q :: q in t ==> q in r.value && r.value[q] == t[q])
        && (forall q :: q in r.value && q !in t ==> OnWay(q, p)))
      && (r == Err(AlreadyExists) <==> p in t && !t[p].Link? && !(t[p].Dir? && existOk))
  {
    var r := Mkdir(t, p, parents, existOk);
    ParentMeans(t, p);
    MakeChainMeans(t, p);
    if r.Ok? {
      if p in t {
        DirsAboveNode(t, p);
        forall a | OnWay(a, p) ensures IsDirAt(t, a) { assert a == p || a < p; }
      } else {
        MadeMeans(t, p, parents);
      }
    }
  }

  lemma MadeMeans(t: Tree, p: Path, parents: bool)
    requires WellFormed(t) && p !in t && (if parents then OnlyDirsOnWay(t, p) else DirsDownTo(t, p))
    ensures
      var u := AddDirs(t, if parents then MissingAbove(t, p) else {p});
      && (forall a :: OnWay(a, p) ==> IsDirAt(u, a))
      && (forall q :: q in t ==> q in u && u[q] == t[q])
      && (forall q :: q in u && q !in t ==> OnWay(q, p))
  {
    var ds := if parents then MissingAbove(t, p) else {p};
    forall d ensures d in ds ==> d !in t && OnWay(d, p) { MissingMeans(t, p, d); }
    forall a | OnWay(a, p) ensures a in ds || IsDirAt(t, a) {
      MissingMeans(t, p, a);
      assert a == p || a < p;
    }
  }

  // ---- renames --------------------------------------------------------------------------

  /** What is at or below the source is found at its image, and nothing is left behind. */
  lemma MoveReads(t: Tree, src: Path, dst: Path, p: Path)
    requires src <= p
    ensures
      var u, q := Move(t, src, dst), Rebase(p, src, dst);
      && (q in u <==> p in t) && (p in t ==> u[q] == t[p])
      && (!(dst <= p) ==> p !in u)
  {
    var q := Rebase(p, src, dst);
    RebaseBack(p, src, dst);
    MoveAt(t, src, dst, q);
    MoveAt(t, src, dst, p);
  }

  /** What lies at or below neither end stays. */
  lemma MoveElsewhere(t: Tree, src: Path, dst: Path, p: Path)
    requires !(src <= p) && !(dst <= p)
    ensures p in Move(t, src, dst) <==> p in t
    ensures p in t ==> Move(t, src, dst)[p] == t[p]
  {
    MoveAt(t, src, dst, p);
  }

  /**
   * A rename succeeds exactly from a file onto nothing or a file, or from a
   * directory without links onto nothing or an empty directory outside it,
   * both ends below directories; then the source is read at the destination.
   */
  lemma RenameMeans(t: Tree, src: Path, dst: Path)
    requires WellFormed(t)
    ensures
      var r := Rename(t, src, dst);
      && (r.Ok? <==>
        && src != [] && dst != [] && DirsDownTo(t, dst) && src in t
        && (IsFileAt(t, src) ==> dst !in t || t[dst].File?)
        && (IsDirAt(t, src) ==> (dst !in t || (t[dst].Dir? && Empty(t, dst))) && !(src < dst) && !LinkBelow(t, src))
        && !t[src].Link?)
      && (r.Ok? ==> dst in r.value && r.value[dst] == t[src] && (src != dst && !(dst <= src) ==> src !in r.value))
  {
    hide Move;
    ParentMeans(t, dst);
    ParentMeans(t, src);
    if src in t {
      DirsAboveNode(t, src);
      MoveReads(t, src, dst, src);
      assert Rebase(src, src, dst) == dst;
    }
  }

  /** A rename onto nothing is undone by renaming back. */
  lemma RenameUndone(t: Tree, src: Path, dst: Path)
    requires WellFormed(t) && Rename(t, src, dst).Ok? && dst !in t
    ensures Rename(Rename(t, src, dst).value, dst, src) == Ok(t)
  {
    hide Move, ChainError, WellFormed;
    var u := Move(t, src, dst);
    RenameMovable(t, src, dst);
    MoveKeepsForm(t, src, dst);
    ParentMeans(t, src);
    RenamedEnds(t, src, dst);
    MoveBack(t, src, dst);
    ParentMeans(u, src);
    ParentMeans(u, dst);
    AboveNode(u, dst);
    if t[src].Dir? { NoLinksMoved(t, src, dst); }
    EmptyMoved(t, src, dst);
  }

  lemma AboveNode(u: Tree, dst: Path)
    requires WellFormed(u) && dst in u
    ensures DirsDownTo(u, dst)
  {
  }

  lemma RenameMovable(t: Tree, src: Path, dst: Path)
    requires WellFormed(t) && Rename(t, src, dst).Ok? && dst !in t
    ensures Movable(t, src, dst) && Empty(t, dst) && src != dst && !(src < dst)
    ensures Rename(t, src, dst) == Ok(Move(t, src, dst)) && ParentError(t, src).Ok?
    ensures !t[src].Link? && (t[src].Dir? ==> !LinkBelow(t, src))
  {
    hide Move, ChainError;
    FileIsEmpty(t, dst);
    if t[src].File? { SourceNotAbove(t, src, dst); }
  }

  lemma NoLinksMoved(t: Tree, src: Path, dst: Path)
    requires !LinkBelow(t, src)
    ensures !LinkBelow(Move(t, src, dst), dst)
  {
    hide Move;
    var u := Move(t, src, dst);
    forall q | q in u && dst < q ensures !u[q].Link? {
      var p := Rebase(q, dst, src);
      RebaseBack(q, dst, src);
      RebasePrefix(dst, q, dst, src);
      MoveReads(t, src, dst, p);
    }
  }

  lemma EmptyMoved(t: Tree, src: Path, dst: Path)
    requires src in t && src !in Move(t, src, dst) && WellFormed(Move(t, src, dst))
    ensures Empty(Move(t, src, dst), src)
  {
    hide Move;
    FileIsEmpty(Move(t, src, dst), src);
  }

  lemma SourceNotAbove(t: Tree, src: Path, dst: Path)
    requires WellFormed(t) && src in t && t[src].File? && dst != [] && ParentError(t, dst).Ok?
    ensures !(src < dst)
  {
    if src < dst { DirsAbove(t, dst, src); }
  }

  lemma RenamedEnds(t: Tree, src: Path, dst: Path)
    requires WellFormed(t) && Movable(t, src, dst) && src != dst && dst !in t && DirsDownTo(t, src)
    ensures
      var u := Move(t, src, dst);
      dst in u && u[dst] == t[src] && src !in u && DirsDownTo(u, src) && !(dst < src)
  {
    MoveReads(t, src, dst, src);
    assert Rebase(src, src, dst) == dst;
    assert IsDirAt(t, dst) || !(dst < src);
    forall d | d < src ensures IsDirAt(Move(t, src, dst), d) {
      assert IsDirAt(t, d);
      assert dst <= d ==> dst < src;
      MoveElsewhere(t, src, dst, d);
    }
  }

  lemma MoveBack(t: Tree, src: Path, dst: Path)
    requires WellFormed(t) && src in t && dst !in t && Empty(t, dst) && !(src < dst) && !(dst < src) && src != dst
    ensures Move(Move(t, src, dst), dst, src) == t
  {
    var u := Move(t, src, dst);
    var w := Move(u, dst, src);
    forall p ensures (p in w <==> p in t) && (p in t ==> w[p] == t[p]) { MovedBackAt(t, u, src, dst, p); }
  }

  lemma MovedBackAt(t: Tree, u: Tree, src: Path, dst: Path, p: Path)
    requires u == Move(t, src, dst) && dst !in t && Empty(t, dst) && !(src < dst) && !(dst < src) && src != dst
    ensures p in Move(u, dst, src) <==> p in t
    ensures p in t ==> Move(u, dst, src)[p] == t[p]
  {
    if src <= p {
      var q := Rebase(p, src, dst);
      MoveReads(t, src, dst, p);
      MoveReads(u, dst, src, q);
      RebaseBack(p, src, dst);
    } else if dst <= p {
      assert p == dst || dst < p;
      MoveReads(u, dst, src, p);
    } else {
      MoveElsewhere(t, src, dst, p);
      MoveElsewhere(u, dst, src, p);
    }
  }

  // ---- which error ---------------------------------------------------------------------

  /** Where nothing is, every operation that needs it, or its parent, says whether a link or an absence is in the way. */
  ghost predicate Blocked(t: Tree, p: Path, e: Error)
  {
    e == if LinkOnWay(t, p) then PathEscape else NotFound
  }

  lemma LinkBlocks(t: Tree, p: Path)
    requires WellFormed(t) && p !in t
    ensures !DirsDownTo(t, p) ==> ParentError(t, p).Err? && Blocked(t, p, ParentError(t, p).error)
    ensures DirsDownTo(t, p) ==> ParentError(t, p).Ok? && !LinkOnWay(t, p)
  {
    ParentMeans(t, p);
    assert p != [];
    forall a ensures (OnWay(a, p) <==> a == p || OnWay(a, Parent(p))) && (OnWay(a, Parent(p)) ==> a < p) { OnWayParent(a, p); }
    if DirsDownTo(t, p) {
      forall a | OnWay(a, p) && a in t ensures !t[a].Link? { assert IsDirAt(t, a); }
    }
  }

  lemma WriteErrors(t: Tree, p: Path, data: Bytes, e: Error)
    requires WellFormed(t)
    ensures Write(t, p, data) == Err(e) ==>
      match e
      case IsADirectory => IsDirAt(t, p)
      case PathEscape => LinkOnWay(t, p)
      case NotFound => p !in t && !LinkOnWay(t, p) && !DirsDownTo(t, p)
      case _ => false
    ensures CreateExclusive(t, p) == Err(e) ==> if p in t then e == AlreadyExists else Blocked(t, p, e)
  {
    ParentMeans(t, p);
    if p !in t {
      LinkBlocks(t, p);
    } else {
      DirsAboveNode(t, p);
      assert OnWay(p, p);
    }
  }

  lemma RemoveErrors(t: Tree, p: Path, e: Error)
    requires WellFormed(t)
    ensures Unlink(t, p) == Err(e) ==>
      if p !in t then Blocked(t, p, e) else if IsDirAt(t, p) then e == IsADirectory else t[p].Link? && e == PathEscape
    ensures Rmdir(t, p) == Err(e) ==>
      if p == [] then e == PathEscape
      else if p !in t then Blocked(t, p, e)
      else if IsDirAt(t, p) then e == DirectoryNotEmpty && (exists n :: p + [n] in t)
      else if IsFileAt(t, p) then e == NotADirectory else e == PathEscape
  {
    if p !in t { LinkBlocks(t, p); }
    if IsDirAt(t, p) && forall n :: p + [n] !in t { NoChildren(t, p); }
  }

  lemma MkdirErrors(t: Tree, p: Path, parents: bool, existOk: bool, e: Error)
    requires WellFormed(t) && Mkdir(t, p, parents, existOk) == Err(e)
    ensures if p in t then e == (if t[p].Link? then PathEscape else AlreadyExists)
            else if !parents then Blocked(t, p, e)
            else e == if LinkOnWay(t, p) then PathEscape else NotADirectory
  {
    MakeChainMeans(t, p);
    if p !in t { LinkBlocks(t, p); }
  }

  /** A refused rename whose ends are both placed below directories. */
  lemma RenameErrors(t: Tree, src: Path, dst: Path, e: Error)
    requires WellFormed(t) && Rename(t, src, dst) == Err(e)
    ensures src == [] || dst == [] ==> e == PathEscape
    ensures src != [] && dst != [] && DirsDownTo(t, src) && DirsDownTo(t, dst) && !(dst in t && t[dst].Link?) ==>
      if src !in t then e == NotFound
      else if t[src].Link? then e == PathEscape
      else if t[src].File? then e == IsADirectory && IsDirAt(t, dst)
      else match e
        case NotADirectory => IsFileAt(t, dst)
        case DirectoryNotEmpty => IsDirAt(t, dst) && !Empty(t, dst)
        case InvalidArgument => src < dst && (dst in t ==> Empty(t, dst))
        case PathEscape => LinkBelow(t, src)
        case _ => false
    ensures e in {NotFound, PathEscape, IsADirectory, NotADirectory, DirectoryNotEmpty, InvalidArgument}
  {
    hide Move;
    ParentMeans(t, src);
    ParentMeans(t, dst);
  }
}
