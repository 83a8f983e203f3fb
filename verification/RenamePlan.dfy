/**
 * A rename as a plan of moves: which entries it leaves behind, proved to be a
 * subtree move in the merged view that keeps the overlay's invariant.
 */
module RenamePlan {
  import opened Paths
  import opened PlainFs
  import opened OverlayView
  import opened OverlayStorage
  import opened OverlayMkdir
  import opened OverlayOps
  import opened Sums

  /** The entry a host node is captured as: files by reference, directories by themselves. */
  function CaptureOf(host: Tree, p: Path): Entry
    requires p in host && !host[p].Link?
  {
    if host[p].File? then RefEntry(p, |host[p].content|) else DirEntry
  }

  /** What a rename takes along from `p`: its overlay entry, or a capture of what the host has there. */
  ghost function CaptureAt(host: Tree, entries: Entries, p: Path): Entry
  {
    if p in entries then entries[p]
    else if p in host && !host[p].Link? then CaptureOf(host, p)
    else Deleted
  }

  /** The paths a rename moves: the source, and below a directory everything either layer has. */
  ghost predicate Moved(host: Tree, entries: Entries, src: Path, p: Path)
  {
    || p == src
    || (src < p && Look(host, entries, src) == Some(Dir) && (p in entries || p in host))
  }

  ghost function RenamedAt(host: Tree, entries: Entries, src: Path, dst: Path, k: Path): Option<Entry>
  {
    if dst <= k && Moved(host, entries, src, Rebase(k, dst, src)) then
      Some(CaptureAt(host, entries, Rebase(k, dst, src)))
    else if Moved(host, entries, src, k) then Some(Deleted)
    else Look1(entries, k)
  }

  /** The overlay after a rename. */
  ghost function Renamed(host: Tree, entries: Entries, src: Path, dst: Path): Entries
  {
    var known := entries.Keys + host.Keys + {src};
    map k | k in known + (set q | q in known && src <= q :: Rebase(q, src, dst))
            && RenamedAt(host, entries, src, dst, k).Some? ::
      RenamedAt(host, entries, src, dst, k).value
  }

  lemma RenamedLook(host: Tree, entries: Entries, src: Path, dst: Path, k: Path)
    ensures Look1(Renamed(host, entries, src, dst), k) == RenamedAt(host, entries, src, dst, k)
  {
    if dst <= k {
      var s := Rebase(k, dst, src);
      RebaseBack(k, dst, src);
      assert src <= s && Rebase(s, src, dst) == k;
      assert src <= src;
    }
  }

  /** Where a rename may go: outside its own subtree, onto nothing visible below the destination. */
  ghost predicate Renamable(host: Tree, entries: Entries, src: Path, dst: Path)
  {
    var t := View(host, entries);
    && Inv(host, entries)
    && Movable(t, src, dst)
    && !t[src].Link? && !(dst in t && t[dst].Link?)
    && !LinkBelow(t, src)
  }

  /** Everything at or below a moved path's view is what its capture shows. */
  lemma CaptureShows(host: Tree, entries: Entries, p: Path)
    requires EntriesValid(host, entries)
    requires p in host && p !in entries ==> !host[p].Link?
    ensures Shown(host, CaptureAt(host, entries, p)) == Look(host, entries, p)
    ensures EntryValid(host, CaptureAt(host, entries, p))
  {
    assert p in entries ==> EntryValid(host, entries[p]);
  }

  lemma SourceLinkFree(host: Tree, entries: Entries, src: Path, dst: Path, p: Path)
    requires Renamable(host, entries, src, dst) && src <= p && p in host && p !in entries
    ensures !host[p].Link?
  {
    ViewAt(host, entries, p);
    assert src == p || src < p;
  }

  /** Below a path that is no directory nothing shows; below the destination nothing shows either. */
  lemma HiddenBelow(host: Tree, entries: Entries, src: Path, dst: Path, q: Path)
    requires Renamable(host, entries, src, dst) && src != dst && dst < q
    ensures Look(host, entries, q) == None
  {
    ViewAt(host, entries, q);
  }

  lemma UnmovedBelow(host: Tree, entries: Entries, src: Path, dst: Path, p: Path)
    requires Renamable(host, entries, src, dst) && src <= p && !Moved(host, entries, src, p)
    ensures Look(host, entries, p) == None && p != src
  {
    ViewAt(host, entries, p);
    ViewAt(host, entries, src);
    assert p == src || src < p;
  }

  /** At each path, the overlay a rename leaves shows what the moved tree holds. */
  lemma RenameShows(host: Tree, entries: Entries, src: Path, dst: Path, q: Path)
    requires Renamable(host, entries, src, dst)
    ensures Look(host, Renamed(host, entries, src, dst), q) == MovedTo(View(host, entries), src, dst, q)
  {
    hide Inv, View, Renamed, WellFormed;
    var t := View(host, entries);
    RenamedLook(host, entries, src, dst, q);
    ViewAt(host, entries, q);
    if dst <= q {
      var s := Rebase(q, dst, src);
      ViewAt(host, entries, s);
      if Moved(host, entries, src, s) {
        ShowsCapture(host, entries, src, dst, s);
      } else {
        UnmovedBelow(host, entries, src, dst, s);
        assert q == dst ==> s == src;
        assert dst < q;
        if src == dst {
          assert s == q;
        } else {
          HiddenBelow(host, entries, src, dst, q);
        }
      }
    } else if src <= q {
      if !Moved(host, entries, src, q) {
        UnmovedBelow(host, entries, src, dst, q);
      }
    }
  }

  lemma ShowsCapture(host: Tree, entries: Entries, src: Path, dst: Path, s: Path)
    requires Renamable(host, entries, src, dst) && src <= s
    ensures Shown(host, CaptureAt(host, entries, s)) == Look(host, entries, s)
    ensures EntryValid(host, CaptureAt(host, entries, s))
  {
    if s in host && s !in entries { SourceLinkFree(host, entries, src, dst, s); }
    CaptureShows(host, entries, s);
  }

  /** A rename is exactly a subtree move in the merged view. */
  lemma RenameMoves(host: Tree, entries: Entries, src: Path, dst: Path)
    requires Renamable(host, entries, src, dst)
    ensures View(host, Renamed(host, entries, src, dst)) == Move(View(host, entries), src, dst)
  {
    hide Renamable, View, Move, Renamed, MovedTo;
    var t := View(host, entries);
    var u, v := View(host, Renamed(host, entries, src, dst)), Move(t, src, dst);
    forall q ensures q in u <==> q in v {
      SameAt(host, entries, src, dst, q);
    }
    forall q | q in u ensures u[q] == v[q] {
      SameAt(host, entries, src, dst, q);
    }
  }

  lemma SameAt(host: Tree, entries: Entries, src: Path, dst: Path, q: Path)
    requires Renamable(host, entries, src, dst)
    ensures
      var u, v := View(host, Renamed(host, entries, src, dst)), Move(View(host, entries), src, dst);
      (q in u <==> q in v) && (q in u ==> u[q] == v[q])
  {
    hide Renamable, View, Renamed, MovedTo;
    RenameShows(host, entries, src, dst, q);
    ViewAt(host, Renamed(host, entries, src, dst), q);
    MoveAt(View(host, entries), src, dst, q);
  }

  /** A rename loses no key. */
  lemma RenameKeepsKeys(host: Tree, entries: Entries, src: Path, dst: Path)
    ensures entries.Keys <= Renamed(host, entries, src, dst).Keys
  {
    forall k | k in entries ensures k in Renamed(host, entries, src, dst) {
      RenamedLook(host, entries, src, dst, k);
    }
  }

  /** Below the destination the host has nothing the overlay does not already hide. */
  lemma DestinationOverlaid(host: Tree, entries: Entries, src: Path, dst: Path, h: Path)
    requires Renamable(host, entries, src, dst) && src != dst && h in host && dst < h
    ensures h in entries
  {
    HiddenBelow(host, entries, src, dst, h);
  }

  lemma RenameShadow(host: Tree, entries: Entries, src: Path, dst: Path, k: Path, h: Path)
    requires Renamable(host, entries, src, dst)
    requires k in Renamed(host, entries, src, dst) && h in host && k < h
    ensures h in Renamed(host, entries, src, dst)
  {
    hide View, Renamed, WellFormed, Movable, LinkBelow;
    RenamedLook(host, entries, src, dst, k);
    RenamedLook(host, entries, src, dst, h);
    if k !in entries && h !in entries {
      if dst <= k && src != dst {
        DestinationOverlaid(host, entries, src, dst, h);
      } else {
        assert src <= k;
        BelowMoved(host, entries, src, dst, k, h);
      }
    }
  }

  /** What lies below a moved unkeyed host path is moved with it. */
  lemma BelowMoved(host: Tree, entries: Entries, src: Path, dst: Path, k: Path, h: Path)
    requires Renamable(host, entries, src, dst)
    requires src <= k && k !in entries && h in host && k < h && h !in entries
    ensures Moved(host, entries, src, h)
  {
    assert k == src || src < k;
    assert src in host && host[src].Dir?;
    assert src !in entries;
  }

  lemma RenameLinkFree(host: Tree, entries: Entries, src: Path, dst: Path, k: Path, h: Path)
    requires Renamable(host, entries, src, dst)
    requires k in Renamed(host, entries, src, dst) && h in host && host[h].Link?
    ensures !(h <= k)
  {
    hide View, Renamed, WellFormed;
    RenamedLook(host, entries, src, dst, k);
    LinkShows(host, entries, h);
    if k !in entries && h <= k {
      if dst <= k && src != dst {
        LinkNotUnder(host, entries, src, dst, h, k);
      } else {
        LinkNotUnderSource(host, entries, src, dst, h, k);
      }
    }
  }

  lemma LinkNotUnder(host: Tree, entries: Entries, src: Path, dst: Path, h: Path, k: Path)
    requires Renamable(host, entries, src, dst) && src != dst
    requires h in host && host[h].Link? && dst <= k
    ensures !(h <= k)
  {
    LinkShows(host, entries, h);
    var t := View(host, entries);
    if h < dst { DirsAbove(t, dst, h); }
    if dst < h { DestinationOverlaid(host, entries, src, dst, h); }
    assert h <= k ==> h < dst || h == dst || dst < h;
  }

  lemma LinkNotUnderSource(host: Tree, entries: Entries, src: Path, dst: Path, h: Path, k: Path)
    requires Renamable(host, entries, src, dst)
    requires h in host && host[h].Link? && src <= k
    ensures !(h <= k)
  {
    LinkShows(host, entries, h);
    assert h <= k ==> h < src || h == src || src < h;
  }

  /** A rename keeps the overlay's invariant. */
  lemma RenameKeepsInv(host: Tree, entries: Entries, src: Path, dst: Path)
    requires Renamable(host, entries, src, dst)
    ensures Inv(host, Renamed(host, entries, src, dst))
  {
    hide Renamed, View, Move, LinkBelow, Movable;
    var after := Renamed(host, entries, src, dst);
    RenameMoves(host, entries, src, dst);
    MoveKeepsForm(View(host, entries), src, dst);
    forall k, h | k in after && h in host && k < h ensures h in after {
      RenameShadow(host, entries, src, dst, k, h);
    }
    forall k, h | k in after && h in host && host[h].Link? ensures !(h <= k) {
      RenameLinkFree(host, entries, src, dst, k, h);
    }
    forall k | k in after ensures k != [] && EntryValid(host, after[k]) {
      RenamedEntry(host, entries, src, dst, k);
    }
  }

  lemma RenamedEntry(host: Tree, entries: Entries, src: Path, dst: Path, k: Path)
    requires Renamable(host, entries, src, dst) && k in Renamed(host, entries, src, dst)
    ensures k != [] && EntryValid(host, Renamed(host, entries, src, dst)[k])
  {
    hide View, Renamed, WellFormed;
    RenamedLook(host, entries, src, dst, k);
    if dst <= k {
      ShowsCapture(host, entries, src, dst, Rebase(k, dst, src));
    }
  }

  // ---- the plan as a list -------------------------------------------------

  /** One planned move: a tombstone at `from`, the entry at `to`. */
  datatype Transfer = Transfer(from: Path, to: Path, entry: Entry)

  /** A list moving every moved path exactly once, with its capture. */
  ghost predicate IsPlan(host: Tree, entries: Entries, src: Path, dst: Path, plan: seq<Transfer>)
  {
    && (forall i :: 0 <= i < |plan| ==> IsTransfer(host, entries, src, dst, plan[i]))
    && (forall i, j :: 0 <= i < j < |plan| ==> plan[i].from != plan[j].from)
    && (forall p :: Moved(host, entries, src, p) ==> exists i :: 0 <= i < |plan| && plan[i].from == p)
  }

  ghost predicate IsTransfer(host: Tree, entries: Entries, src: Path, dst: Path, m: Transfer)
  {
    && src <= m.from && Moved(host, entries, src, m.from)
    && m.to == Rebase(m.from, src, dst)
    && m.entry == CaptureAt(host, entries, m.from)
  }

  /** The plan's replacements in the order they are checked and written. */
  function Flatten(plan: seq<Transfer>): (reps: seq<Replacement>)
    ensures |reps| == 2 * |plan|
    ensures forall i :: 0 <= i < |plan| ==> reps[2 * i] == Replacement(plan[i].from, Deleted)
    ensures forall i :: 0 <= i < |plan| ==> reps[2 * i + 1] == Replacement(plan[i].to, plan[i].entry)
  {
    if plan == [] then []
    else
      var n := |plan| - 1;
      Flatten(plan[..n]) + [Replacement(plan[n].from, Deleted), Replacement(plan[n].to, plan[n].entry)]
  }

  ghost predicate Apart(src: Path, dst: Path)
  {
    src == dst || (!(src <= dst) && !(dst <= src))
  }

  /** Which transfer a replacement comes from: the last half names the destination. */
  lemma FlatIndex(plan: seq<Transfer>, n: nat)
    requires n < 2 * |plan|
    ensures n / 2 < |plan|
    ensures Flatten(plan)[n] == if n % 2 == 0 then Replacement(plan[n / 2].from, Deleted)
                                else Replacement(plan[n / 2].to, plan[n / 2].entry)
  {
    var i := n / 2;
    assert n == 2 * i || n == 2 * i + 1;
  }

  /** A path is written as a destination exactly when its preimage is moved. */
  lemma DestinationOf(host: Tree, entries: Entries, src: Path, dst: Path, m: Transfer)
    requires IsTransfer(host, entries, src, dst, m)
    ensures dst <= m.to && Rebase(m.to, dst, src) == m.from
  {
    RebaseBack(m.from, src, dst);
  }

  lemma PlanAt(host: Tree, entries: Entries, src: Path, dst: Path, plan: seq<Transfer>, k: Path)
    requires IsPlan(host, entries, src, dst, plan) && Apart(src, dst)
    ensures Look1(Apply(entries, Flatten(plan)), k) == RenamedAt(host, entries, src, dst, k)
  {
    hide Moved, CaptureAt, Flatten, Apply;
    var j := LastWrite(entries, Flatten(plan), k);
    if j >= 0 {
      FlatIndex(plan, j);
      DestinationOf(host, entries, src, dst, plan[j / 2]);
    }
    if dst <= k && Moved(host, entries, src, Rebase(k, dst, src)) {
      WrittenAsDestination(host, entries, src, dst, plan, k, j);
    } else if Moved(host, entries, src, k) {
      var i :| 0 <= i < |plan| && plan[i].from == k;
      FlatIndex(plan, 2 * i);
      assert j >= 2 * i;
    }
  }

  lemma WrittenAsDestination(host: Tree, entries: Entries, src: Path, dst: Path, plan: seq<Transfer>, k: Path, j: int)
    requires IsPlan(host, entries, src, dst, plan) && Apart(src, dst)
    requires dst <= k && Moved(host, entries, src, Rebase(k, dst, src))
    requires -1 <= j < 2 * |plan| && forall i :: j < i < 2 * |plan| ==> Flatten(plan)[i].path != k
    requires j >= 0 ==> Flatten(plan)[j].path == k
    ensures j >= 0 && j % 2 == 1 && plan[j / 2].from == Rebase(k, dst, src)
  {
    var s := Rebase(k, dst, src);
    var i :| 0 <= i < |plan| && plan[i].from == s;
    RebaseBack(k, dst, src);
    FlatIndex(plan, 2 * i + 1);
    assert j >= 2 * i + 1;
    FlatIndex(plan, j);
    DestinationOf(host, entries, src, dst, plan[j / 2]);
  }

  /** Applying the plan's replacements leaves exactly the renamed overlay. */
  lemma PlanApplied(host: Tree, entries: Entries, src: Path, dst: Path, plan: seq<Transfer>)
    requires IsPlan(host, entries, src, dst, plan) && Apart(src, dst)
    ensures Apply(entries, Flatten(plan)) == Renamed(host, entries, src, dst)
  {
    hide IsPlan, Flatten, Apply, Renamed, RenamedAt;
    var x, y := Apply(entries, Flatten(plan)), Renamed(host, entries, src, dst);
    forall k ensures Look1(x, k) == Look1(y, k) {
      PlanAt(host, entries, src, dst, plan, k);
      RenamedLook(host, entries, src, dst, k);
    }
    MapsAgree(x, y);
  }

  /** Within a plan only tombstones are overwritten. */
  lemma PlanOverwrites(host: Tree, entries: Entries, src: Path, dst: Path, plan: seq<Transfer>)
    requires IsPlan(host, entries, src, dst, plan) && Apart(src, dst)
    ensures OverwritesTombstones(Flatten(plan))
  {
    hide Moved, CaptureAt, Flatten;
    var reps := Flatten(plan);
    forall i, j | 0 <= i < j < |reps| && reps[i].path == reps[j].path ensures reps[i].entry.Deleted? {
      FlatIndex(plan, i);
      FlatIndex(plan, j);
      if i % 2 == 1 {
        DestinationOf(host, entries, src, dst, plan[i / 2]);
        DestinationOf(host, entries, src, dst, plan[j / 2]);
      }
    }
  }

  /** A path still to be moved has not been written by the moves before it. */
  lemma NotYetWritten(host: Tree, entries: Entries, src: Path, dst: Path, plan: seq<Transfer>, n: nat)
    requires IsPlan(host, entries, src, dst, plan) && Apart(src, dst) && n < |plan|
    ensures Look1(Apply(entries, Flatten(plan)[..2 * n]), plan[n].from) == Look1(entries, plan[n].from)
  {
    hide Moved, CaptureAt, Flatten, Apply;
    var j := LastWrite(entries, Flatten(plan)[..2 * n], plan[n].from);
    if j >= 0 {
      FlatIndex(plan, j);
      DestinationOf(host, entries, src, dst, plan[j / 2]);
    }
  }

  /** Moving entries adds no file content: it leaves each one's old place as it arrives at its new one. */
  lemma {:induction false} PlanHoldsBytes(host: Tree, entries: Entries, src: Path, dst: Path, plan: seq<Transfer>, n: nat)
    requires IsPlan(host, entries, src, dst, plan) && Apart(src, dst) && n <= |plan|
    ensures FileBytes(Apply(entries, Flatten(plan)[..2 * n])) <= FileBytes(entries)
  {
    hide IsPlan, Flatten, Apply, FileBytes;
    var reps := Flatten(plan);
    ApplyNothing(entries, reps);
    if n > 0 {
      PlanHoldsBytes(host, entries, src, dst, plan, n - 1);
      NotYetWritten(host, entries, src, dst, plan, n - 1);
      CapturedBytes(host, entries, src, dst, plan, n - 1);
      FlatIndex(plan, 2 * n - 2);
      FlatIndex(plan, 2 * n - 1);
      ApplyOne(entries, reps, 2 * n - 2);
      ApplyOne(entries, reps, 2 * n - 1);
      TransferBytes(Apply(entries, reps[..2 * n - 2]), plan[n - 1]);
    }
  }

  lemma TransferBytes(x: Entries, m: Transfer)
    requires FileLength(m.to, m.entry) == if m.from in x then FileLength(m.from, x[m.from]) else 0
    ensures FileBytes(x[m.from := Deleted][m.to := m.entry]) <= FileBytes(x)
  {
    SumUpdate(x, FileLength, m.from, Deleted);
    SumUpdate(x[m.from := Deleted], FileLength, m.to, m.entry);
  }

  lemma CapturedBytes(host: Tree, entries: Entries, src: Path, dst: Path, plan: seq<Transfer>, n: nat)
    requires IsPlan(host, entries, src, dst, plan) && n < |plan|
    ensures FileLength(plan[n].to, plan[n].entry) ==
            if plan[n].from in entries then FileLength(plan[n].from, entries[plan[n].from]) else 0
  {
    assert IsTransfer(host, entries, src, dst, plan[n]);
  }

  /** A rename adds nothing to the content the overlay holds. */
  lemma RenameHoldsBytes(host: Tree, entries: Entries, src: Path, dst: Path, plan: seq<Transfer>)
    requires IsPlan(host, entries, src, dst, plan) && Apart(src, dst)
    ensures FileBytes(Renamed(host, entries, src, dst)) <= FileBytes(entries)
  {
    hide IsPlan, Renamed, Apply;
    PlanHoldsBytes(host, entries, src, dst, plan, |plan|);
    assert Flatten(plan)[..2 * |plan|] == Flatten(plan);
    PlanApplied(host, entries, src, dst, plan);
  }
}
