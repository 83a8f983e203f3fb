/**
 * The merged view of an overlay over a host tree, and the invariant that lets
 * the overlay answer from its own entries alone.
 */
module OverlayView {
  import opened Paths
  import opened PlainFs

  datatype Entry =
    /** A file written by sandbox code and held in memory. */
    | FileEntry(content: Bytes)
    /** A host file renamed without being read; `size` is the length it had when captured. */
    | RefEntry(relative: Path, size: nat)
    | DirEntry
    /** A tombstone. */
    | Deleted

  type Entries = map<Path, Entry>

  /** What an entry shows: nothing for a tombstone, the host file's content for a reference. */
  function Shown(host: Tree, e: Entry): Option<Node>
  {
    match e
    case FileEntry(content) => Some(File(content))
    case RefEntry(rel, _) => if rel in host && host[rel].File? then Some(host[rel]) else None
    case DirEntry => Some(Dir)
    case Deleted => None
  }

  /** The node visible at `p`: the overlay entry if there is one, otherwise the host's. */
  function Look(host: Tree, entries: Entries, p: Path): Option<Node>
  {
    if p in entries then Shown(host, entries[p])
    else if p in host then Some(host[p])
    else None
  }

  ghost function View(host: Tree, entries: Entries): Tree
  {
    map p | p in host.Keys + entries.Keys && Look(host, entries, p).Some? :: Look(host, entries, p).value
  }

  /** The view at one path. */
  lemma ViewAt(host: Tree, entries: Entries, p: Path)
    ensures p in View(host, entries) <==> Look(host, entries, p).Some?
    ensures p in View(host, entries) ==> View(host, entries)[p] == Look(host, entries, p).value
  {
  }

  ghost predicate EntryValid(host: Tree, e: Entry)
  {
    e.RefEntry? ==>
      e.relative in host && host[e.relative].File? && e.size == |host[e.relative].content|
  }

  /** Every host path below an overlaid path is itself overlaid. */
  ghost predicate ShadowClosed(host: Tree, entries: Entries)
  {
    forall k, h :: k in entries && h in host && k < h ==> h in entries
  }

  /** No overlaid path is a host link or lies below one. */
  ghost predicate LinkFreeKeys(host: Tree, entries: Entries)
  {
    forall k, h :: k in entries && h in host && host[h].Link? ==> !(h <= k)
  }

  ghost predicate EntriesValid(host: Tree, entries: Entries)
  {
    [] !in entries && forall k :: k in entries ==> EntryValid(host, entries[k])
  }

  ghost predicate Inv(host: Tree, entries: Entries)
  {
    && WellFormed(host)
    && ShadowClosed(host, entries)
    && LinkFreeKeys(host, entries)
    && EntriesValid(host, entries)
    && WellFormed(View(host, entries))
  }

  /** An untouched overlay shows the host tree exactly. */
  lemma FreshView(host: Tree)
    requires WellFormed(host)
    ensures View(host, map[]) == host && Inv(host, map[])
  {
    assert View(host, map[]) == host;
  }

  /** A place the overlay may put an entry at: below visible directories, empty and not a link. */
  ghost predicate Writable(t: Tree, p: Path)
  {
    p != [] && ParentError(t, p).Ok? && Empty(t, p) && !(p in t && t[p].Link?)
  }

  lemma NoLinkOnTheWay(host: Tree, entries: Entries, p: Path, h: Path)
    requires Inv(host, entries) && Writable(View(host, entries), p)
    requires h in host && host[h].Link?
    ensures !(h <= p)
  {
    var t := View(host, entries);
    assert h <= h;
    assert h !in entries;
    assert h in t && t[h].Link?;
    assert h <= p ==> h == p || h < p;
    if h < p { DirsAbove(t, p, h); }
  }

  /** Without any assumption on the place, only that place's appearance changes. */
  lemma PutView(host: Tree, entries: Entries, p: Path, e: Entry)
    requires EntryValid(host, e)
    ensures View(host, entries[p := e]) ==
            if e.Deleted? then View(host, entries) - {p}
            else View(host, entries)[p := Shown(host, e).value]
  {
    var t, u := View(host, entries), View(host, entries[p := e]);
    if e.Deleted? {
      assert u == t - {p};
    } else {
      assert u == t[p := Shown(host, e).value];
    }
  }

  lemma PutShadow(host: Tree, entries: Entries, p: Path, e: Entry)
    requires ShadowClosed(host, entries) && Empty(View(host, entries), p)
    ensures ShadowClosed(host, entries[p := e])
  {
    var t := View(host, entries);
    forall h | h in host && p < h ensures h in entries {
      assert h in entries || h in t;
    }
  }

  /** One entry put at a writable place changes the view at that place only and keeps the invariant. */
  lemma PutEntry(host: Tree, entries: Entries, p: Path, e: Entry)
    requires Inv(host, entries) && Writable(View(host, entries), p)
    requires EntryValid(host, e)
    ensures Inv(host, entries[p := e])
    ensures View(host, entries[p := e]) ==
            if e.Deleted? then View(host, entries) - {p}
            else View(host, entries)[p := Shown(host, e).value]
  {
    var t := View(host, entries);
    PutView(host, entries, p, e);
    PutShadow(host, entries, p, e);
    forall h | h in host && host[h].Link? ensures !(h <= p) {
      NoLinkOnTheWay(host, entries, p, h);
    }
    if e.Deleted? {
      DropKeepsForm(t, p);
    } else {
      PutKeepsForm(t, p, Shown(host, e).value);
    }
  }
}
