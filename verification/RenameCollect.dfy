/**
 * Capturing the host subtree a rename must take along.  The walk skips every
 * path the overlay holds without looking below it; shadow closure is what
 * makes that complete.
 */
module RenameCollect {
  import opened Paths
  import opened PlainFs
  import opened OverlayView
  import opened OverlayStorage
  import opened RenamePlan
  import opened Listings
  import opened Sums

  /** Per-entry charge while capturing a host directory. */
  const REAL_DESCENDANT_MEMORY_USAGE: nat := 512

  type Captured = Item<Path, Entry>

  /** The host paths below `src` the overlay does not hold. */
  ghost predicate Unkeyed(host: Tree, entries: Entries, src: Path, h: Path)
  {
    h in host && src < h && h !in entries
  }

  ghost predicate UnkeyedLink(host: Tree, entries: Entries, src: Path)
  {
    exists h :: Unkeyed(host, entries, src, h) && host[h].Link?
  }

  /** What a complete walk captures. */
  ghost function Captures(host: Tree, entries: Entries, src: Path): map<Path, Entry>
  {
    map h | h in host && Unkeyed(host, entries, src, h) && !host[h].Link? :: CaptureOf(host, h)
  }

  /** What capturing one entry is charged: a directory's key also waits in the queue. */
  function CaptureCharge(p: Path, e: Entry): nat
  {
    (if e.DirEntry? then 3 * |Key(p)| else 2 * |Key(p)|) + REAL_DESCENDANT_MEMORY_USAGE
  }

  /** Capturing an entry is charged more than keeping it will be. */
  lemma CaptureCovers(host: Tree, p: Path)
    requires p in host && !host[p].Link?
    ensures CaptureCharge(p, CaptureOf(host, p)) > EntryUsage(p, CaptureOf(host, p)) || EntryUsage(p, CaptureOf(host, p)) == U64_MAX
    ensures CaptureCharge(p, CaptureOf(host, p)) == (if host[p].Dir? then 3 else 2) * |Key(p)| + 512
  {
  }

  function RootCharge(src: Path): nat
  {
    2 * |Key(src)| + 1
  }

  /** The source's own key waits in the queue, and once more as the prefix of its children's. */
  lemma RootChargeMeans(src: Path)
    ensures RootCharge(src) == |Key(src)| + |Key(src) + [SLASH]|
  {
  }

  ghost function CollectCharge(host: Tree, entries: Entries, src: Path): nat
  {
    RootCharge(src) + Sum(Captures(host, entries, src), CaptureCharge)
  }

  /**
   * The walk's progress: `dirs` wait to be listed, `current` is being listed
   * with `names` to go, and whatever is not caught lies below one of them.
   */
  ghost predicate Frontier(host: Tree, entries: Entries, src: Path, caught: map<Path, Entry>,
                           dirs: seq<Path>, current: Path, names: set<Name>)
  {
    && CaughtValid(host, entries, src, caught)
    && Queue(host, src, caught, dirs, current, names)
    && Complete(host, entries, src, caught, dirs, current, names)
  }

  ghost predicate CaughtValid(host: Tree, entries: Entries, src: Path, caught: map<Path, Entry>)
  {
    forall k :: k in caught ==>
      k in host && Unkeyed(host, entries, src, k) && !host[k].Link? && caught[k] == CaptureOf(host, k)
  }

  /** Nothing below a waiting directory has been caught yet. */
  ghost predicate Queue(host: Tree, src: Path, caught: map<Path, Entry>,
                        dirs: seq<Path>, current: Path, names: set<Name>)
  {
    && Known(host, src, caught, current) && names <= ChildNames(host, current)
    && (forall i :: 0 <= i < |dirs| ==> Known(host, src, caught, dirs[i]) && dirs[i] != current)
    && (forall i, j :: 0 <= i < j < |dirs| ==> dirs[i] != dirs[j])
    && (forall i, k :: 0 <= i < |dirs| && k in caught ==> !(dirs[i] < k))
    && (forall k :: k in caught && current < k ==> k[|current|] !in names)
  }

  ghost predicate Complete(host: Tree, entries: Entries, src: Path, caught: map<Path, Entry>,
                           dirs: seq<Path>, current: Path, names: set<Name>)
  {
    forall h :: Unkeyed(host, entries, src, h) ==> h in caught || Awaits(dirs, current, names, h)
  }

  ghost predicate Known(host: Tree, src: Path, caught: map<Path, Entry>, d: Path)
  {
    src <= d && d in host && host[d].Dir? && (d == src || d in caught)
  }

  ghost predicate Awaits(dirs: seq<Path>, current: Path, names: set<Name>, h: Path)
  {
    || (exists i :: 0 <= i < |dirs| && dirs[i] < h)
    || (current < h && h[|current|] in names)
  }

  lemma FrontierStart(host: Tree, entries: Entries, src: Path)
    requires WellFormed(host) && src in host && host[src].Dir?
    ensures Frontier(host, entries, src, map[], [], src, ChildNames(host, src))
  {
    assert src <= src;
    forall h | Unkeyed(host, entries, src, h) ensures Awaits([], src, ChildNames(host, src), h) {
      ChildNameOf(host, src, h);
    }
  }

  lemma ChildNameOf(host: Tree, d: Path, h: Path)
    requires WellFormed(host) && h in host && d < h
    ensures h[|d|] in ChildNames(host, d)
  {
    var c := h[..|d| + 1];
    assert c == h || c < h;
    assert c == d + [h[|d|]];
  }

  /** Taking the last waiting directory up next. */
  lemma FrontierNext(host: Tree, entries: Entries, src: Path, caught: map<Path, Entry>, dirs: seq<Path>, current: Path)
    requires WellFormed(host) && Frontier(host, entries, src, caught, dirs, current, {}) && dirs != []
    ensures
      var next := dirs[|dirs| - 1];
      Frontier(host, entries, src, caught, dirs[..|dirs| - 1], next, ChildNames(host, next))
  {
    var n := |dirs| - 1;
    var next, names := dirs[n], ChildNames(host, dirs[n]);
    forall h | Unkeyed(host, entries, src, h) ensures h in caught || Awaits(dirs[..n], next, names, h) {
      if h !in caught {
        var i :| 0 <= i < |dirs| && dirs[i] < h;
        if i == n { ChildNameOf(host, next, h); } else { assert dirs[..n][i] < h; }
      }
    }
  }

  /** Skipping a child the overlay holds: nothing below it is unkeyed. */
  lemma FrontierSkip(host: Tree, entries: Entries, src: Path, caught: map<Path, Entry>,
                     dirs: seq<Path>, current: Path, names: set<Name>, name: Name)
    requires ShadowClosed(host, entries) && Frontier(host, entries, src, caught, dirs, current, names)
    requires name in names && current + [name] in entries
    ensures Frontier(host, entries, src, caught, dirs, current, names - {name})
  {
    forall h | Unkeyed(host, entries, src, h) ensures h in caught || Awaits(dirs, current, names - {name}, h) {
      AtOrBelowChild(current, name, h);
    }
  }

  lemma CaughtStep(host: Tree, src: Path, caught: map<Path, Entry>,
                   dirs: seq<Path>, current: Path, names: set<Name>, name: Name)
    requires Queue(host, src, caught, dirs, current, names) && name in names
    ensures
      var c := current + [name];
      && c !in caught && c !in dirs && c != current && src < c
      && (forall i :: 0 <= i < |dirs| ==> !(dirs[i] < c))
      && (forall k :: k in caught ==> !(c < k))
  {
    var c := current + [name];
    assert src < c && current < c && c[|current|] == name;
    forall i | 0 <= i < |dirs| ensures !(dirs[i] < c) {
      AboveChild(dirs[i], current, name);
    }
    forall k | k in caught ensures !(c < k) {
      AtOrBelowChild(current, name, k);
    }
  }

  /** Below a caught directory everything still to be caught waits for that directory. */
  lemma CatchComplete(host: Tree, entries: Entries, src: Path, caught: map<Path, Entry>,
                      dirs: seq<Path>, current: Path, names: set<Name>, name: Name, e: Entry)
    requires WellFormed(host) && Complete(host, entries, src, caught, dirs, current, names)
    requires name in names && current + [name] in host && !host[current + [name]].Link?
    ensures
      var c := current + [name];
      Complete(host, entries, src, caught[c := e], if host[c].Dir? then dirs + [c] else dirs, current, names - {name})
  {
    var c := current + [name];
    var dirs' := if host[c].Dir? then dirs + [c] else dirs;
    forall h | Unkeyed(host, entries, src, h)
      ensures h in caught || h == c || Awaits(dirs', current, names - {name}, h)
    {
      AtOrBelowChild(current, name, h);
      if i :| 0 <= i < |dirs| && dirs[i] < h {
        assert dirs'[i] < h;
      } else if c < h {
        assert dirs'[|dirs|] < h;
      }
    }
  }

  lemma CatchQueue(host: Tree, src: Path, caught: map<Path, Entry>,
                   dirs: seq<Path>, current: Path, names: set<Name>, name: Name, e: Entry)
    requires Queue(host, src, caught, dirs, current, names) && name in names && current + [name] in host
    ensures
      var c := current + [name];
      Queue(host, src, caught[c := e], if host[c].Dir? then dirs + [c] else dirs, current, names - {name})
  {
    hide ChildNames;
    CaughtStep(host, src, caught, dirs, current, names, name);
    var c, caught' := current + [name], caught[current + [name] := e];
    var dirs' := if host[c].Dir? then dirs + [c] else dirs;
    forall i | 0 <= i < |dirs'| ensures Known(host, src, caught', dirs'[i]) && dirs'[i] != current {
      assert i < |dirs| ==> dirs'[i] == dirs[i];
    }
  }

  /** Catching a child that is no link; a directory also waits to be listed. */
  lemma FrontierCatch(host: Tree, entries: Entries, src: Path, caught: map<Path, Entry>,
                      dirs: seq<Path>, current: Path, names: set<Name>, name: Name)
    requires WellFormed(host) && Frontier(host, entries, src, caught, dirs, current, names)
    requires name in names && current + [name] in host && current + [name] !in entries
    requires !host[current + [name]].Link?
    ensures
      var c := current + [name];
      && c !in caught
      && Frontier(host, entries, src, caught[c := CaptureOf(host, c)],
                  if host[c].Dir? then dirs + [c] else dirs, current, names - {name})
  {
    hide Queue, Complete, CaptureOf, WellFormed;
    var c := current + [name];
    CaughtStep(host, src, caught, dirs, current, names, name);
    CatchQueue(host, src, caught, dirs, current, names, name, CaptureOf(host, c));
    CatchComplete(host, entries, src, caught, dirs, current, names, name, CaptureOf(host, c));
  }

  /** With nothing left to list, everything unkeyed has been caught and none of it is a link. */
  lemma FrontierDone(host: Tree, entries: Entries, src: Path, caught: map<Path, Entry>, current: Path)
    requires Frontier(host, entries, src, caught, [], current, {})
    ensures caught == Captures(host, entries, src) && !UnkeyedLink(host, entries, src)
  {
  }

  /** Catching one more makes progress and stays within what a complete walk is charged. */
  lemma CatchCharge(host: Tree, entries: Entries, src: Path, caught: map<Path, Entry>, c: Path, e: Entry)
    requires c !in caught && CaughtValid(host, entries, src, caught[c := e])
    ensures
      var full := Captures(host, entries, src);
      && full != map[]
      && |full.Keys - caught[c := e].Keys| < |full.Keys - caught.Keys|
      && Sum(caught[c := e], CaptureCharge) == Sum(caught, CaptureCharge) + CaptureCharge(c, e)
      && RootCharge(src) + Sum(caught[c := e], CaptureCharge) <= CollectCharge(host, entries, src)
  {
    var full := Captures(host, entries, src);
    assert c in full;
    assert full.Keys - caught[c := e].Keys == (full.Keys - caught.Keys) - {c};
    SumUpdate(caught, CaptureCharge, c, e);
    SumMonotone(caught[c := e], full, CaptureCharge);
  }

  /** The walk's working values: what it has captured, the directories waiting, and the bytes charged. */
  datatype Walk = Walk(result: seq<Captured>, dirs: seq<Path>, usage: nat)

  ghost predicate WalkInv(host: Tree, entries: Entries, src: Path, available: nat, w: Walk,
                          caught: map<Path, Entry>, current: Path, names: set<Name>)
  {
    && Frontier(host, entries, src, caught, w.dirs, current, names)
    && Enumerates(w.result, caught)
    && w.usage == Capped(RootCharge(src) + Sum(caught, CaptureCharge))
    && (w.result == [] || RootCharge(src) + Sum(caught, CaptureCharge) <= available)
  }

  /** Falls with every directory listed, since a directory is queued only as it is caught. */
  ghost function Left(host: Tree, entries: Entries, src: Path, w: Walk, caught: map<Path, Entry>): nat
  {
    2 * |Captures(host, entries, src).Keys - caught.Keys| + |w.dirs|
  }

  /** Why a walk stops: at a link, or past the budget a complete walk would need. */
  ghost predicate Stops(host: Tree, entries: Entries, src: Path, available: nat, e: Error)
  {
    || (e == PathEscape && UnkeyedLink(host, entries, src))
    || (e == MemoryLimit && Captures(host, entries, src) != map[] && CollectCharge(host, entries, src) > available)
  }

  /** Captures one child that is not keyed. */
  method CaptureChild(host: Tree, entries: Entries, src: Path, available: nat, w: Walk,
                      ghost caught: map<Path, Entry>, current: Path, ghost names: set<Name>, name: Name)
    returns (r: Result<Walk>, ghost caught': map<Path, Entry>)
    requires WellFormed(host) && available < U64_MAX
    requires WalkInv(host, entries, src, available, w, caught, current, names)
    requires name in names && current + [name] in host && src < current + [name] && current + [name] !in entries
    ensures r.Ok? ==> WalkInv(host, entries, src, available, r.value, caught', current, names - {name})
    ensures r.Ok? ==> Left(host, entries, src, r.value, caught') <= Left(host, entries, src, w, caught)
    ensures r.Err? ==> Stops(host, entries, src, available, r.error)
  {
    hide Captures, Frontier, Enumerates, CaughtValid, WellFormed, CaptureCharge, UnkeyedLink;
    var child := current + [name];
    caught' := caught;
    if host[child].Link? {
      LinkFound(host, entries, src, child);
      return Err(PathEscape), caught';
    }
    var entry := CaptureOf(host, child);
    var dirs := if host[child].Dir? then w.dirs + [child] else w.dirs;
    FrontierCatch(host, entries, src, caught, w.dirs, current, names, name);
    FrontierValid(host, entries, src, caught[child := entry], dirs, current, names - {name});
    CatchCharge(host, entries, src, caught, child, entry);
    var usage := Capped(w.usage + CaptureCharge(child, entry));
    if usage > available {
      return Err(MemoryLimit), caught';
    }
    EnumerateOne(w.result, caught, Item(child, entry));
    caught' := caught[child := entry];
    r := Ok(Walk(w.result + [Item(child, entry)], dirs, usage));
  }

  /** Lists one directory, skipping every child the overlay holds. */
  method ListDirectory(host: Tree, entries: Entries, src: Path, available: nat, start: Walk,
                       ghost before: map<Path, Entry>, current: Path)
    returns (r: Result<Walk>, ghost caught: map<Path, Entry>)
    requires WellFormed(host) && ShadowClosed(host, entries) && available < U64_MAX
    requires WalkInv(host, entries, src, available, start, before, current, ChildNames(host, current))
    ensures r.Ok? ==> WalkInv(host, entries, src, available, r.value, caught, current, {})
    ensures r.Ok? ==> Left(host, entries, src, r.value, caught) <= Left(host, entries, src, start, before)
    ensures r.Err? ==> Stops(host, entries, src, available, r.error)
  {
    hide Captures, Frontier, Enumerates, WellFormed, ShadowClosed, Stops, Left, ChildNames;
    var w, names := start, ChildNames(host, current);
    caught := before;
    while names != {}
      invariant WalkInv(host, entries, src, available, w, caught, current, names)
      invariant Left(host, entries, src, w, caught) <= Left(host, entries, src, start, before)
      decreases names
    {
      var name :| name in names;
      NextChild(host, entries, src, caught, w.dirs, current, names, name);
      if current + [name] in entries {
        FrontierSkip(host, entries, src, caught, w.dirs, current, names, name);
      } else {
        ghost var was := caught;
        r, caught := CaptureChild(host, entries, src, available, w, caught, current, names, name);
        if r.Err? { return; }
        w := r.value;
      }
      names := names - {name};
    }
    r := Ok(w);
  }

  /**
   * Captures every unkeyed host path below `src`, refusing links.  A budget
   * error needs something captured: the root's own charge is never checked alone.
   */
  method CollectRealDescendants(host: Tree, entries: Entries, src: Path, available: nat) returns (r: Result<seq<Captured>>)
    requires WellFormed(host) && ShadowClosed(host, entries)
    requires src in host && host[src].Dir? && available < U64_MAX
    ensures r.Ok? ==> !UnkeyedLink(host, entries, src) && Enumerates(r.value, Captures(host, entries, src))
    ensures r.Ok? ==> r.value == [] || CollectCharge(host, entries, src) <= available
    ensures r.Err? ==> Stops(host, entries, src, available, r.error)
  {
    hide Captures, Frontier, Enumerates, ShadowClosed, UnkeyedLink, ChildNames, WellFormed, Stops;
    FrontierStart(host, entries, src);
    EnumeratesNothing<Path, Entry>();
    var listed;
    ghost var caught: map<Path, Entry> := map[];
    var current := src;
    listed, caught := ListDirectory(host, entries, src, available, Walk([], [], Capped(RootCharge(src))), caught, current);
    if listed.Err? { return Err(listed.error); }
    var w := listed.value;
    while w.dirs != []
      invariant WalkInv(host, entries, src, available, w, caught, current, {})
      decreases Left(host, entries, src, w, caught)
    {
      FrontierNext(host, entries, src, caught, w.dirs, current);
      current := w.dirs[|w.dirs| - 1];
      w := w.(dirs := w.dirs[..|w.dirs| - 1]);
      listed, caught := ListDirectory(host, entries, src, available, w, caught, current);
      if listed.Err? { return Err(listed.error); }
      w := listed.value;
    }
    FrontierDone(host, entries, src, caught, current);
    return Ok(w.result);
  }

  lemma NextChild(host: Tree, entries: Entries, src: Path, caught: map<Path, Entry>,
                  dirs: seq<Path>, current: Path, names: set<Name>, name: Name)
    requires Frontier(host, entries, src, caught, dirs, current, names) && name in names
    ensures current + [name] in host && src < current + [name]
  {
  }

  lemma FrontierValid(host: Tree, entries: Entries, src: Path, caught: map<Path, Entry>,
                      dirs: seq<Path>, current: Path, names: set<Name>)
    requires Frontier(host, entries, src, caught, dirs, current, names)
    ensures CaughtValid(host, entries, src, caught)
  {
  }

  lemma LinkFound(host: Tree, entries: Entries, src: Path, h: Path)
    requires Unkeyed(host, entries, src, h) && host[h].Link?
    ensures UnkeyedLink(host, entries, src)
  {
  }
}
