/**
 * The reference filesystem: a plain map from paths to nodes, with each operation
 * stated directly on that map.  It has one layer, no tombstones, no lazy
 * references and no budgets; the overlay is proved to behave like it.
 */
module PlainFs {
  import opened Paths

  /**
   * `Link` is a symbolic link, whose target is never examined; `listed` says
   * whether it resolves inside the mount, which decides if listings show it.
   */
  datatype Node = File(content: Bytes) | Dir | Link(listed: bool)

  type Tree = map<Path, Node>

  datatype Error =
    | NotFound
    | IsADirectory
    | NotADirectory
    | AlreadyExists
    | DirectoryNotEmpty
    | InvalidArgument
    | PathEscape
    | MemoryLimit
    | WriteLimit

  datatype Result<+T> = Ok(value: T) | Err(error: Error)

  /** The root is a directory and every node's ancestors are directories. */
  ghost predicate WellFormed(t: Tree)
  {
    && [] in t && t[[]].Dir?
    && forall p, d :: p in t && d < p ==> d in t && t[d].Dir?
  }

  /** Why a path's directory chain cannot be entered, taken at its shallowest bad component. */
  function ChainError(t: Tree, d: Path): (e: Result<()>)
  {
    if d == [] then Ok(())
    else if ChainError(t, Parent(d)).Err? then ChainError(t, Parent(d))
    else if d !in t then Err(NotFound)
    else match t[d]
      case Dir => Ok(())
      case Link(_) => Err(PathEscape)
      case File(_) => Err(NotFound)
  }

  function ParentError(t: Tree, p: Path): (e: Result<()>)
  {
    if p == [] then Ok(()) else ChainError(t, Parent(p))
  }

  /** No node lies strictly below `d`. */
  ghost predicate Empty(t: Tree, d: Path)
  {
    forall p :: p in t ==> !(d < p)
  }

  /** Looking a path up; a link anywhere on the way is refused. */
  ghost function Find(t: Tree, p: Path): Result<Node>
  {
    if p in t then
      if t[p].Link? then Err(PathEscape) else Ok(t[p])
    else if ParentError(t, p) == Err(PathEscape) then Err(PathEscape)
    else Err(NotFound)
  }

  /** What is at a path, as the four path predicates answer together. */
  datatype PathInfo = PathInfo(isDir: bool, isFile: bool, isSymlink: bool, resolves: bool)

  function Describe(n: Option<Node>): PathInfo
  {
    match n
    case None => PathInfo(false, false, false, false)
    case Some(File(_)) => PathInfo(false, true, false, true)
    case Some(Dir) => PathInfo(true, false, false, true)
    case Some(Link(_)) => PathInfo(false, false, true, false)
  }

  /** The children a listing of `d` shows, with what they are. */
  ghost function Children(t: Tree, d: Path): map<Name, PathInfo>
  {
    map n | n in ChildNames(t, d) && Shows(t[d + [n]]) :: Describe(Some(t[d + [n]]))
  }

  /** The names directly below `d`, in no particular order. */
  function ChildNames<V>(t: map<Path, V>, d: Path): (names: set<Name>)
    ensures forall n :: n in names <==> d + [n] in t
  {
    var names := set h | h in t && |h| == |d| + 1 && d < h :: h[|d|];
    assert forall h :: h in t && |h| == |d| + 1 && d < h ==> h == d + [h[|d|]];
    assert forall n :: d + [n] in t ==> (d + [n])[|d|] == n && d < d + [n];
    names
  }

  predicate Shows(n: Node)
  {
    n.Link? ==> n.listed
  }

  ghost function Write(t: Tree, p: Path, data: Bytes): Result<Tree>
  {
    if ParentError(t, p).Err? then Err(ParentError(t, p).error)
    else if p in t && t[p].Dir? then Err(IsADirectory)
    else if p in t && t[p].Link? then Err(PathEscape)
    else Ok(t[p := File(data)])
  }

  ghost function Append(t: Tree, p: Path, data: Bytes): Result<Tree>
  {
    Write(t, p, (if p in t && t[p].File? then t[p].content else []) + data)
  }

  ghost function CreateExclusive(t: Tree, p: Path): Result<Tree>
  {
    if ParentError(t, p).Err? then Err(ParentError(t, p).error)
    else if p in t then Err(AlreadyExists)
    else Ok(t[p := File([])])
  }

  /** Opening for append creates an empty file only where nothing is. */
  ghost function OpenAppend(t: Tree, p: Path): Result<Tree>
  {
    if p in t then
      match t[p]
      case File(_) => Ok(t)
      case Dir => Err(IsADirectory)
      case Link(_) => Err(PathEscape)
    else if ParentError(t, p).Err? then Err(ParentError(t, p).error)
    else Ok(t[p := File([])])
  }

  /** The paths at or above `p` where nothing is. */
  function MissingAbove(t: Tree, p: Path): set<Path>
  {
    if p == [] then {}
    else MissingAbove(t, Parent(p)) + if p in t then {} else {p}
  }

  /** The shallowest component of `p` that exists and is not a directory refuses the chain. */
  function MakeChainError(t: Tree, p: Path): Result<()>
  {
    if p == [] then Ok(())
    else if MakeChainError(t, Parent(p)).Err? then MakeChainError(t, Parent(p))
    else if p !in t then Ok(())
    else match t[p]
      case Dir => Ok(())
      case Link(_) => Err(PathEscape)
      case File(_) => Err(NotADirectory)
  }

  function AddDirs(t: Tree, ds: set<Path>): Tree
  {
    t + map d | d in ds :: Dir
  }

  ghost function Mkdir(t: Tree, p: Path, parents: bool, existOk: bool): Result<Tree>
  {
    if p in t then
      match t[p]
      case Dir => if existOk then Ok(t) else Err(AlreadyExists)
      case File(_) => Err(AlreadyExists)
      case Link(_) => Err(PathEscape)
    else if parents then
      if MakeChainError(t, p).Err? then Err(MakeChainError(t, p).error)
      else Ok(AddDirs(t, MissingAbove(t, p)))
    else if ParentError(t, p).Err? then Err(ParentError(t, p).error)
    else Ok(AddDirs(t, {p}))
  }

  ghost function Unlink(t: Tree, p: Path): Result<Tree>
  {
    if p in t then
      match t[p]
      case File(_) => Ok(t - {p})
      case Dir => Err(IsADirectory)
      case Link(_) => Err(PathEscape)
    else if ParentError(t, p).Err? then Err(ParentError(t, p).error)
    else Err(NotFound)
  }

  ghost function Rmdir(t: Tree, p: Path): Result<Tree>
  {
    if p == [] then Err(PathEscape)
    else if p in t then
      match t[p]
      case Dir => if Empty(t, p) then Ok(t - {p}) else Err(DirectoryNotEmpty)
      case File(_) => Err(NotADirectory)
      case Link(_) => Err(PathEscape)
    else if ParentError(t, p).Err? then Err(ParentError(t, p).error)
    else Err(NotFound)
  }

  /** Whether a link lies strictly below `d`. */
  ghost predicate LinkBelow(t: Tree, d: Path)
  {
    exists p :: p in t && d < p && t[p].Link?
  }

  /**
   * The subtree at `src` moved to `dst`: what was at or below either is gone,
   * and every node at or below `src` reappears at its image below `dst`.
   */
  ghost function Move(t: Tree, src: Path, dst: Path): Tree
  {
    map p | p in t.Keys + Images(t, src, dst) && MovedTo(t, src, dst, p).Some? ::
      MovedTo(t, src, dst, p).value
  }

  /** The paths below `dst` that the nodes below `src` are rebased to. */
  ghost function Images(t: Tree, src: Path, dst: Path): set<Path>
  {
    set q | q in t && src <= q :: Rebase(q, src, dst)
  }

  ghost function MovedTo(t: Tree, src: Path, dst: Path, p: Path): Option<Node>
  {
    if dst <= p then
      var s := Rebase(p, dst, src);
      if s in t then Some(t[s]) else None
    else if p in t && !(src <= p) then Some(t[p])
    else None
  }

  /**
   * A rename's answer where both ends name something inside the mount: either
   * a refusal or the moved tree.  A directory is renamed only onto nothing or
   * an empty directory, a file only onto nothing or a file.
   */
  ghost function Rename(t: Tree, src: Path, dst: Path): Result<Tree>
  {
    if src == [] || dst == [] then Err(PathEscape)
    else if ParentError(t, dst).Err? then Err(ParentError(t, dst).error)
    else if dst in t && t[dst].Link? then Err(PathEscape)
    else if ParentError(t, src).Err? then Err(ParentError(t, src).error)
    else if src !in t then Err(NotFound)
    else match t[src]
      case Link(_) => Err(PathEscape)
      case File(_) =>
        if dst in t && t[dst].Dir? then Err(IsADirectory) else Ok(Move(t, src, dst))
      case Dir =>
        if dst in t && t[dst].File? then Err(NotADirectory)
        else if dst in t && !Empty(t, dst) then Err(DirectoryNotEmpty)
        else if src < dst then Err(InvalidArgument)
        else if LinkBelow(t, src) then Err(PathEscape)
        else Ok(Move(t, src, dst))
  }

  // ---- what the operations keep -------------------------------------------

  lemma {:induction false} ChainOk(t: Tree, d: Path)
    requires WellFormed(t)
    ensures ChainError(t, d).Ok? <==> d in t && t[d].Dir?
  {
    if d != [] {
      ChainOk(t, Parent(d));
      assert Parent(d) < d;
    }
  }

  lemma DirsAbove(t: Tree, p: Path, d: Path)
    requires WellFormed(t) && ParentError(t, p).Ok? && d < p
    ensures d in t && t[d].Dir?
  {
    ChainOk(t, Parent(p));
    assert d == Parent(p) || d < Parent(p);
  }

  /** A node put where its parent is a directory, over nothing below it, keeps the tree well formed. */
  lemma PutKeepsForm(t: Tree, p: Path, n: Node)
    requires WellFormed(t) && p != []
    requires ParentError(t, p).Ok?
    requires n.Dir? || Empty(t, p)
    ensures WellFormed(t[p := n])
  {
    var u := t[p := n];
    forall q, d | q in u && d < q ensures d in u && u[d].Dir? {
      if q == p { DirsAbove(t, p, d); }
    }
  }

  lemma DropKeepsForm(t: Tree, p: Path)
    requires WellFormed(t) && p != [] && Empty(t, p)
    ensures WellFormed(t - {p})
  {
  }

  /** What a moved tree holds at one path. */
  lemma MoveAt(t: Tree, src: Path, dst: Path, q: Path)
    ensures q in Move(t, src, dst) <==> MovedTo(t, src, dst, q).Some?
  {
    if dst <= q && Rebase(q, dst, src) in t {
      RebaseBack(q, dst, src);
      assert q in Images(t, src, dst);
    }
  }

  /** The places a subtree at `src` may be moved to: outside itself, below a directory, onto nothing or something empty. */
  ghost predicate Movable(t: Tree, src: Path, dst: Path)
  {
    && src != [] && dst != [] && src in t
    && ParentError(t, dst).Ok? && !(src < dst)
    && (src == dst || Empty(t, dst))
  }

  /** Moving a subtree keeps the tree well formed. */
  lemma MoveKeepsForm(t: Tree, src: Path, dst: Path)
    requires WellFormed(t) && Movable(t, src, dst)
    ensures WellFormed(Move(t, src, dst))
  {
    ChainOk(t, Parent(dst));
    var u := Move(t, src, dst);
    forall q, d | q in u && d < q ensures d in u && u[d].Dir? {
      MoveAncestor(t, src, dst, q, d);
    }
    MoveAt(t, src, dst, []);
  }

  lemma MoveAncestor(t: Tree, src: Path, dst: Path, q: Path, d: Path)
    requires WellFormed(t) && Movable(t, src, dst)
    requires q in Move(t, src, dst) && d < q
    ensures d in Move(t, src, dst) && Move(t, src, dst)[d].Dir?
  {
    MoveAt(t, src, dst, q);
    MoveAt(t, src, dst, d);
    if dst <= q && dst <= d {
      RebasePrefix(d, q, dst, src);
    } else if dst <= q {
      AboveDestination(t, src, dst, d);
    }
  }

  lemma AboveDestination(t: Tree, src: Path, dst: Path, d: Path)
    requires WellFormed(t) && Movable(t, src, dst) && d < dst
    ensures d in t && t[d].Dir? && !(src <= d)
  {
    DirsAbove(t, dst, d);
  }

  lemma FileIsEmpty(t: Tree, p: Path)
    requires WellFormed(t)
    requires p !in t || !t[p].Dir?
    ensures Empty(t, p)
  {
  }
}
