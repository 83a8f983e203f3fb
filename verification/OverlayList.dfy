/** Directory listings merged from both layers, within a memory budget. */
module OverlayList {
  import opened Paths
  import opened PlainFs
  import opened OverlayView
  import opened OverlayStorage
  import opened HostWalk
  import opened OverlayOps
  import opened OverlayRemove
  import opened OverlayRead
  import opened RenameCollect
  import opened Listings
  import opened Sums
  import opened VirtualPath

  /** Per-item charge for transient listing bookkeeping. */
  const LISTING_ENTRY_MEMORY_USAGE: nat := 128

  /** Whether a listing merges the host directory; an overlay directory never does. */
  method RealDirToMerge(entries: Entries, host: Tree, p: Path) returns (r: Result<bool>)
    requires Inv(host, entries)
    ensures r == match Find(View(host, entries), p)
                 case Err(e) => Err(e)
                 case Ok(File(_)) => Err(NotADirectory)
                 case Ok(_) => Ok(p !in entries)
  {
    hide Inv, View, LinkOn, ChainError;
    InvHost(host, entries);
    ViewAt(host, entries, p);
    if p in entries {
      match entries[p] {
        case DirEntry => return Ok(false);
        case FileEntry(_) => return Err(NotADirectory);
        case RefEntry(_, _) =>
          RefShows(host, entries, p);
          return Err(NotADirectory);
        case Deleted =>
          TombstoneParents(host, entries, p);
          return Err(NotFound);
      }
    }
    var chain := RejectSymlinkChain(host, p);
    if chain.Err? {
      LinkOnPath(host, entries, p);
      return Err(chain.error);
    }
    LinkOnImplies(host, p);
    if HostIsDir(host, p) { return Ok(true); }
    if !HostExists(host, p) {
      AbsentParents(host, entries, p);
      return Err(NotFound);
    }
    return Err(NotADirectory);
  }

  /** The overlay entries directly inside a directory, tombstones included. */
  ghost function OverlayChildren(entries: Entries, d: Path): map<Name, Entry>
  {
    map n | n in ChildNames(entries, d) :: entries[d + [n]]
  }

  ghost function OverlayShown(host: Tree, entries: Entries, d: Path): map<Name, PathInfo>
  {
    map n | n in ChildNames(entries, d) && !entries[d + [n]].Deleted? :: Describe(Shown(host, entries[d + [n]]))
  }

  /** The host children a listing can show. */
  ghost function HostShown(host: Tree, d: Path): map<Name, PathInfo>
  {
    map n | n in ChildNames(host, d) && Shows(host[d + [n]]) :: Describe(Some(host[d + [n]]))
  }

  /** A directory's visible children are the overlay's, and for one the overlay does not hold the unseen host ones too. */
  lemma MergedChildren(host: Tree, entries: Entries, d: Path)
    requires Inv(host, entries)
    ensures d in entries ==> Children(View(host, entries), d) == OverlayShown(host, entries, d)
    ensures Children(View(host, entries), d) ==
            OverlayShown(host, entries, d) + (HostShown(host, d) - ChildNames(entries, d))
    ensures OverlayShown(host, entries, d).Keys !! (HostShown(host, d) - ChildNames(entries, d)).Keys
  {
    hide Inv, View, OverlayShown, HostShown, Children;
    var t := View(host, entries);
    var x, y := OverlayShown(host, entries, d), HostShown(host, d) - ChildNames(entries, d);
    forall n ensures n in Children(t, d) <==> n in x + y {
      ChildShows(host, entries, d, n);
    }
    forall n | n in Children(t, d) ensures Children(t, d)[n] == (x + y)[n] {
      ChildShows(host, entries, d, n);
    }
    forall n | n in x ensures n !in y {
      ShownNames(host, entries, d, n);
    }
    if d in entries {
      forall n ensures n !in y {
        NoHostChild(host, entries, d, n);
      }
      assert y == map[];
    }
  }

  lemma ShownNames(host: Tree, entries: Entries, d: Path, n: Name)
    requires n in OverlayShown(host, entries, d)
    ensures n in ChildNames(entries, d)
  {
  }

  /** Below an overlaid directory every host child is overlaid. */
  lemma NoHostChild(host: Tree, entries: Entries, d: Path, n: Name)
    requires Inv(host, entries) && d in entries
    ensures n !in HostShown(host, d) - ChildNames(entries, d)
  {
    assert d < d + [n];
  }

  lemma ChildShows(host: Tree, entries: Entries, d: Path, n: Name)
    requires Inv(host, entries)
    ensures
      var t, x := View(host, entries), OverlayShown(host, entries, d);
      var y := HostShown(host, d) - ChildNames(entries, d);
      && (n in Children(t, d) <==> n in x + y)
      && (n in Children(t, d) ==> Children(t, d)[n] == (x + y)[n])
  {
    var c := d + [n];
    ViewAt(host, entries, c);
    assert c in entries ==> EntryValid(host, entries[c]);
  }

  ghost function OverlayCharge(entries: Entries, d: Path, charge: (Name, Entry) -> nat): nat
  {
    Sum(OverlayChildren(entries, d), charge)
  }

  /** The overlay's part of a listing, each child charged as it is met. */
  method ListOverlay(entries: Entries, host: Tree, d: Path, budget: nat, charge: (Name, Entry) -> nat)
    returns (r: Result<nat>, list: seq<Item<Name, PathInfo>>)
    requires EntriesValid(host, entries) && budget < U64_MAX
    ensures r == if OverlayCharge(entries, d, charge) <= budget then Ok(OverlayCharge(entries, d, charge))
                 else Err(MemoryLimit)
    ensures r.Ok? ==> Enumerates(list, OverlayShown(host, entries, d))
  {
    hide Enumerates, EntriesValid, Describe, Shown;
    ghost var all, shown := OverlayChildren(entries, d), OverlayShown(host, entries, d);
    ghost var seen: map<Name, Entry>, listed: map<Name, PathInfo> := map[], map[];
    var rest, usage: nat := ChildNames(entries, d), 0;
    list := [];
    EnumeratesNothing<Name, PathInfo>();
    while rest != {}
      invariant rest !! seen.Keys && all.Keys == rest + seen.Keys
      invariant forall n :: n in seen ==> seen[n] == all[n]
      invariant usage == Sum(seen, charge) <= budget
      invariant rest !! listed.Keys && forall n :: n in listed ==> n in shown && listed[n] == shown[n]
      invariant forall n :: n in shown ==> n in rest || n in listed
      invariant Enumerates(list, listed)
      decreases rest
    {
      var n :| n in rest;
      var entry := entries[d + [n]];
      SumUpdate(seen, charge, n, entry);
      usage := Capped(usage + charge(n, entry));
      if usage > budget {
        PartCharge(all, seen[n := entry], charge);
        return Err(MemoryLimit), list;
      }
      if !entry.Deleted? {
        var info := Describe(Shown(host, entry));
        EnumerateOne(list, listed, Item(n, info));
        list := list + [Item(n, info)];
        listed := listed[n := info];
      }
      seen := seen[n := entry];
      rest := rest - {n};
    }
    assert seen == all && listed == shown;
    r := Ok(usage);
  }

  lemma PartCharge<K(!new), V(!new)>(all: map<K, V>, part: map<K, V>, w: (K, V) -> nat)
    requires forall k :: k in part ==> k in all && part[k] == all[k]
    ensures Sum(part, w) <= Sum(all, w)
  {
    SumMonotone(part, all, w);
  }

  function NameCharge(n: Name, info: PathInfo): nat
  {
    |n| + LISTING_ENTRY_MEMORY_USAGE
  }

  ghost function HostCharge(host: Tree, d: Path): nat
  {
    Sum(HostShown(host, d), NameCharge)
  }

  /** The host's part of a listing; a link that leads out of the mount is left out uncharged. */
  method ListHost(host: Tree, d: Path, available: nat) returns (r: Result<seq<Item<Name, PathInfo>>>)
    requires available < U64_MAX
    ensures if HostCharge(host, d) <= available then r.Ok? && Enumerates(r.value, HostShown(host, d))
            else r == Err(MemoryLimit)
  {
    hide Enumerates;
    ghost var all := HostShown(host, d);
    ghost var listed: map<Name, PathInfo> := map[];
    var rest, usage: nat := ChildNames(host, d), 0;
    var list: seq<Item<Name, PathInfo>> := [];
    EnumeratesNothing<Name, PathInfo>();
    while rest != {}
      invariant rest <= ChildNames(host, d) && rest !! listed.Keys
      invariant forall n :: n in listed ==> n in all && listed[n] == all[n]
      invariant forall n :: n in all ==> n in rest || n in listed
      invariant usage == Sum(listed, NameCharge) <= available
      invariant Enumerates(list, listed)
      decreases rest
    {
      var n :| n in rest;
      rest := rest - {n};
      var node := host[d + [n]];
      if Shows(node) {
        var info := Describe(Some(node));
        SumUpdate(listed, NameCharge, n, info);
        usage := Capped(usage + NameCharge(n, info));
        if usage > available {
          PartCharge(all, listed[n := info], NameCharge);
          return Err(MemoryLimit);
        }
        EnumerateOne(list, listed, Item(n, info));
        list := list + [Item(n, info)];
        listed := listed[n := info];
      }
    }
    assert listed == all;
    return Ok(list);
  }

  /** Keeps the listed items whose names were not seen, charging each. */
  method KeepUnseen(list: seq<Item<Name, PathInfo>>, ghost all: map<Name, PathInfo>, seen: set<Name>,
                    start: nat, budget: nat, charge: (Name, PathInfo) -> nat)
    returns (r: Result<seq<Item<Name, PathInfo>>>)
    requires Enumerates(list, all) && start <= budget < U64_MAX
    ensures if start + Sum(all - seen, charge) <= budget then r.Ok? && Enumerates(r.value, all - seen)
            else r == Err(MemoryLimit)
  {
    hide Enumerates;
    EnumeratesMeans(list, all);
    var usage: nat := start;
    var kept: seq<Item<Name, PathInfo>> := [];
    ghost var taken: map<Name, PathInfo> := map[];
    EnumeratesNothing<Name, PathInfo>();
    for i := 0 to |list|
      invariant forall n :: n in taken ==> n in all && n !in seen && taken[n] == all[n]
      invariant forall j :: 0 <= j < i ==> list[j].key in seen || list[j].key in taken
      invariant forall j :: i <= j < |list| ==> list[j].key !in taken
      invariant usage == start + Sum(taken, charge) <= budget
      invariant Enumerates(kept, taken)
    {
      var item := list[i];
      if item.key !in seen {
        SumUpdate(taken, charge, item.key, item.value);
        usage := Capped(usage + charge(item.key, item.value));
        if usage > budget {
          PartCharge(all - seen, taken[item.key := item.value], charge);
          return Err(MemoryLimit);
        }
        EnumerateOne(kept, taken, item);
        kept := kept + [item];
        taken := taken[item.key := item.value];
      }
    }
    assert taken == all - seen;
    return Ok(kept);
  }

  function ScanCharge(n: Name, e: Entry): nat
  {
    2 * |n| + LISTING_ENTRY_MEMORY_USAGE
  }

  function NoCharge(n: Name, info: PathInfo): nat
  {
    0
  }

  /** Whether a scan's listing fits: overlay names for the dedup set and the copy, then the host's listing. */
  ghost predicate ScanFits(host: Tree, entries: Entries, d: Path, budget: nat)
  {
    && OverlayCharge(entries, d, ScanCharge) <= budget
    && (d !in entries ==> OverlayCharge(entries, d, ScanCharge) + HostCharge(host, d) <= budget)
  }

  lemma {:induction false} NothingCharged(m: map<Name, PathInfo>)
    ensures Sum(m, NoCharge) == 0
    decreases |m|
  {
    if m != map[] {
      var k := Pick(m);
      RemoveShrinks(m, k);
      NothingCharged(m - {k});
    }
  }

  /** Lists a directory for a scan, describing each child as a lookup of it would. */
  method ScanList(entries: Entries, host: Tree, d: Path, budget: nat) returns (r: Result<seq<Item<Name, PathInfo>>>)
    requires Inv(host, entries) && budget < U64_MAX
    ensures match Find(View(host, entries), d)
            case Err(e) => r == Err(e)
            case Ok(File(_)) => r == Err(NotADirectory)
            case Ok(_) =>
              if ScanFits(host, entries, d, budget) then
                r.Ok? && Enumerates(r.value, Children(View(host, entries), d))
              else r == Err(MemoryLimit)
  {
    hide Inv, View, Find, Enumerates, OverlayCharge, HostCharge, OverlayShown, HostShown, Children;
    var merge := RealDirToMerge(entries, host, d);
    FindNoLink(View(host, entries), d);
    if merge.Err? { return Err(merge.error); }
    InvEntries(host, entries);
    MergedChildren(host, entries, d);
    var used, list := ListOverlay(entries, host, d, budget, ScanCharge);
    if used.Err? { return Err(used.error); }
    if merge.value {
      var hosts := ListHost(host, d, budget - used.value);
      if hosts.Err? { return Err(hosts.error); }
      NothingCharged(HostShown(host, d) - ChildNames(entries, d));
      var unseen := KeepUnseen(hosts.value, HostShown(host, d), ChildNames(entries, d), 0, budget, NoCharge);
      EnumerateBoth(list, OverlayShown(host, entries, d),
                    unseen.value, HostShown(host, d) - ChildNames(entries, d));
      list := list + unseen.value;
    }
    return Ok(list);
  }

  lemma FindNoLink(t: Tree, p: Path)
    ensures Find(t, p).Ok? ==> !Find(t, p).value.Link?
  {
  }

  /** A child's virtual path, without a doubled separator. */
  function FormatChildPath(parent: Bytes, child: Name): Bytes
  {
    if parent != [] && parent[|parent| - 1] == SLASH then parent + child else parent + [SLASH] + child
  }

  /** On normalized paths it names the child's components. */
  lemma ChildPathRenders(d: Path, n: Name)
    requires ProperPath(d) && Proper(n)
    ensures FormatChildPath(Render(d), n) == Render(d + [n])
  {
    assert Parent(d + [n]) == d && Last(d + [n]) == n;
    if d != [] {
      SplitRendered(d);
      KeyEnd(d);
      assert Render(d)[|Render(d)| - 1] == Key(d)[|Key(d)| - 1];
    } else {
      assert Spell(d + [n]) == [] + [SLASH] + n;
    }
  }

  /** What one result path is charged. */
  function PathCharge(vpath: Bytes): (Name, PathInfo) -> nat
  {
    (n: Name, info: PathInfo) => |FormatChildPath(vpath, n)| + LISTING_ENTRY_MEMORY_USAGE
  }

  /** What one overlay child is charged: its name twice, and its path if it shows. */
  function IterCharge(vpath: Bytes): (Name, Entry) -> nat
  {
    (n: Name, e: Entry) => 2 * |n| + LISTING_ENTRY_MEMORY_USAGE
              + if e.Deleted? then 0 else |FormatChildPath(vpath, n)| + LISTING_ENTRY_MEMORY_USAGE
  }

  /** Whether an `iterdir` fits: the host listing gets half of what the overlay's part leaves. */
  ghost predicate IterFits(host: Tree, entries: Entries, d: Path, vpath: Bytes, available: nat)
  {
    var overlay := OverlayCharge(entries, d, IterCharge(vpath));
    && overlay <= available
    && (d !in entries ==>
        && HostCharge(host, d) <= (available - overlay) / 2
        && overlay + HostCharge(host, d) + Sum(HostShown(host, d) - ChildNames(entries, d), PathCharge(vpath)) <= available)
  }

  function NameBytes<V>(n: Name, v: V): nat
  {
    |n|
  }

  function TwoNames<V>(n: Name, v: V): nat
  {
    2 * |n|
  }

  function PerItem<V>(n: Name, v: V): nat
  {
    128
  }

  /** The charges in bytes: overlay names twice, host names once, and a fixed charge for each. */
  lemma ScanChargeMeans(host: Tree, entries: Entries, d: Path)
    ensures OverlayCharge(entries, d, ScanCharge) ==
            2 * Sum(OverlayChildren(entries, d), NameBytes) + 128 * |OverlayChildren(entries, d)|
    ensures HostCharge(host, d) == Sum(HostShown(host, d), NameBytes) + 128 * |HostShown(host, d)|
  {
    hide OverlayChildren, HostShown;
    var a, b := OverlayChildren(entries, d), HostShown(host, d);
    SumSplit(a, ScanCharge, TwoNames, PerItem);
    SumSplit(a, TwoNames, NameBytes, NameBytes);
    SumConstant(a, PerItem, 128);
    SumSplit(b, NameCharge, NameBytes, PerItem);
    SumConstant(b, PerItem, 128);
  }

  /** Whatever an `iterdir` returns is within the memory it was given: each path, and a fixed charge for it. */
  lemma IterCovers(host: Tree, entries: Entries, d: Path, vpath: Bytes, available: nat)
    requires Inv(host, entries) && IterFits(host, entries, d, vpath, available)
    ensures Sum(Children(View(host, entries), d), PathCharge(vpath)) <= available
  {
    hide Inv, View, OverlayShown, HostShown, OverlayChildren;
    MergedChildren(host, entries, d);
    var x, y := OverlayShown(host, entries, d), HostShown(host, d) - ChildNames(entries, d);
    ShownCharged(host, entries, d, vpath);
    if d !in entries {
      SumJoin(x, y, PathCharge(vpath));
    }
  }

  lemma ShownCharged(host: Tree, entries: Entries, d: Path, vpath: Bytes)
    ensures Sum(OverlayShown(host, entries, d), PathCharge(vpath)) <= OverlayCharge(entries, d, IterCharge(vpath))
  {
    hide FormatChildPath;
    SumAcross(OverlayShown(host, entries, d), OverlayChildren(entries, d), PathCharge(vpath), IterCharge(vpath));
  }

  /** Lists a directory's visible names, each once. */
  method Iterdir(state: OverlayState, ctx: MountContext, d: Path, vpath: Bytes) returns (r: Result<seq<Name>>)
    requires Valid(state, ctx)
    ensures match Find(Merged(state, ctx), d)
            case Err(e) => r == Err(e)
            case Ok(File(_)) => r == Err(NotADirectory)
            case Ok(_) =>
              if IterFits(ctx.host, state.entries, d, vpath, ctx.memoryLimit - Usage(state.entries)) then
                r.Ok? && Lists(r.value, Children(Merged(state, ctx), d).Keys)
              else r == Err(MemoryLimit)
  {
    hide Inv, View, Find, Enumerates, OverlayCharge, HostCharge, OverlayShown, HostShown, Children, IterCharge, PathCharge;
    var entries, host := state.entries, ctx.host;
    var merge := RealDirToMerge(entries, host, d);
    FindNoLink(View(host, entries), d);
    if merge.Err? { return Err(merge.error); }
    InvEntries(host, entries);
    MergedChildren(host, entries, d);
    var available := ctx.memoryLimit - state.memoryUsage;
    var used, list := ListOverlay(entries, host, d, available, IterCharge(vpath));
    if used.Err? { return Err(used.error); }
    if merge.value {
      var hosts := ListHost(host, d, (available - used.value) / 2);
      if hosts.Err? { return Err(hosts.error); }
      var start := used.value + ListedBytes(hosts.value);
      ListedCharge(hosts.value, HostShown(host, d));
      ChargedHost(host, d);
      var unseen := KeepUnseen(hosts.value, HostShown(host, d), ChildNames(entries, d), start, available, PathCharge(vpath));
      if unseen.Err? { return Err(unseen.error); }
      EnumerateBoth(list, OverlayShown(host, entries, d),
                    unseen.value, HostShown(host, d) - ChildNames(entries, d));
      list := list + unseen.value;
    }
    KeysListed(list, Children(View(host, entries), d));
    return Ok(KeysOf(list));
  }

  lemma ChargedHost(host: Tree, d: Path)
    ensures HostCharge(host, d) == Sum(HostShown(host, d), NameCharge)
  {
  }

  /** The bytes the host names were charged, folded over the listing. */
  function ListedBytes(list: seq<Item<Name, PathInfo>>): nat
  {
    if list == [] then 0
    else ListedBytes(list[..|list| - 1]) + NameCharge(list[|list| - 1].key, list[|list| - 1].value)
  }

  /** Folding over a list that names each entry once gives the map's sum. */
  lemma {:induction false} ListedCharge(list: seq<Item<Name, PathInfo>>, all: map<Name, PathInfo>)
    requires Enumerates(list, all)
    ensures ListedBytes(list) == Sum(all, NameCharge)
  {
    if list == [] {
      EmptyList(list, all);
    } else {
      var n := |list| - 1;
      var last := list[n];
      SumRemove(all, NameCharge, last.key);
      hide Enumerates;
      WithoutLastItem(list, all);
      ListedCharge(list[..n], all - {last.key});
    }
  }

  lemma WithoutLastItem(list: seq<Item<Name, PathInfo>>, all: map<Name, PathInfo>)
    requires Enumerates(list, all) && list != []
    ensures Enumerates(list[..|list| - 1], all - {list[|list| - 1].key})
  {
    var n := |list| - 1;
    var last, rest := list[n].key, list[..n];
    var left := all - {last};
    forall k | k in left ensures exists i :: 0 <= i < |rest| && rest[i].key == k {
      var i :| 0 <= i < |list| && list[i].key == k;
      assert rest[i].key == k;
    }
  }
}
