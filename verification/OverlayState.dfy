/**
 * The overlay's storage: the entry map and the running estimate of the bytes it
 * retains.  All arithmetic saturates at 64 bits as the source's does; the
 * contracts state when the estimate is nevertheless the exact sum.
 */
module OverlayStorage {
  import opened Paths
  import opened PlainFs
  import opened OverlayView
  import opened Sums

  const U64_MAX: nat := 0xFFFF_FFFF_FFFF_FFFF
  /** Limits below this leave room for a plan's intermediate totals. */
  const HALF_U64: nat := 0x8000_0000_0000_0000
  /** Bookkeeping charge for each entry. */
  const ENTRY_MEMORY_USAGE: nat := 256
  /** Size of the source's entry type on a 64-bit target. */
  const ENTRY_SIZE: nat := 40

  function SatAdd(a: nat, b: nat): nat
  {
    if a + b > U64_MAX then U64_MAX else a + b
  }

  function SatSub(a: nat, b: nat): nat
  {
    if a < b then 0 else a - b
  }

  /** A true total as the 64-bit counter shows it. */
  function Capped(n: nat): nat
  {
    if n > U64_MAX then U64_MAX else n
  }

  function BaseUsage(p: Path): nat
  {
    SatAdd(SatAdd(ENTRY_MEMORY_USAGE, |Key(p)|), ENTRY_SIZE)
  }

  function EntryUsage(p: Path, e: Entry): nat
  {
    SatAdd(BaseUsage(p),
      match e
      case FileEntry(content) => |content|
      case RefEntry(rel, _) => |Key(rel)|
      case DirEntry => 0
      case Deleted => 0)
  }

  /** The bytes a map of entries retains. */
  ghost function Usage(entries: Entries): nat
  {
    Sum(entries, EntryUsage)
  }

  function FileLength(p: Path, e: Entry): nat
  {
    if e.FileEntry? then |e.content| else 0
  }

  /** The content bytes held in overlay files. */
  ghost function FileBytes(entries: Entries): nat
  {
    Sum(entries, FileLength)
  }

  function KeyLength(p: Path, e: Entry): nat
  {
    |Key(p)|
  }

  /** The key of the host file a reference stands for. */
  function RefLength(p: Path, e: Entry): nat
  {
    if e.RefEntry? then |Key(e.relative)| else 0
  }

  function HeldLength(p: Path, e: Entry): nat
  {
    FileLength(p, e) + RefLength(p, e)
  }

  function NamedLength(p: Path, e: Entry): nat
  {
    KeyLength(p, e) + HeldLength(p, e)
  }

  function FixedCharge(p: Path, e: Entry): nat
  {
    ENTRY_MEMORY_USAGE + ENTRY_SIZE
  }

  /** The usage in bytes: keys, file content, references, and a fixed charge for each entry. */
  lemma UsageMeans(entries: Entries)
    requires Usage(entries) < U64_MAX
    ensures Usage(entries) ==
            Sum(entries, KeyLength) + FileBytes(entries) + Sum(entries, RefLength) + (256 + 40) * |entries|
  {
    forall k | k in entries ensures EntryUsage(k, entries[k]) == FixedCharge(k, entries[k]) + NamedLength(k, entries[k]) {
      SumRemove(entries, EntryUsage, k);
    }
    SumSplit(entries, EntryUsage, FixedCharge, NamedLength);
    SumSplit(entries, NamedLength, KeyLength, HeldLength);
    SumSplit(entries, HeldLength, FileLength, RefLength);
    SumConstant(entries, FixedCharge, 256 + 40);
  }

  datatype Replacement = Replacement(path: Path, entry: Entry)

  /** The map after a list of replacements, later ones winning. */
  ghost function Apply(entries: Entries, reps: seq<Replacement>): Entries
  {
    if reps == [] then entries
    else
      var last := reps[|reps| - 1];
      Apply(entries, reps[..|reps| - 1])[last.path := last.entry]
  }

  /** Within the list, only tombstones are overwritten. */
  ghost predicate OverwritesTombstones(reps: seq<Replacement>)
  {
    forall i, j :: 0 <= i < j < |reps| && reps[i].path == reps[j].path ==> reps[i].entry.Deleted?
  }

  /** The index of the list's last write to `k`, which is what `k` then holds; -1 when there is none. */
  lemma {:induction false} LastWrite(entries: Entries, reps: seq<Replacement>, k: Path) returns (j: int)
    ensures -1 <= j < |reps|
    ensures forall i :: j < i < |reps| ==> reps[i].path != k
    ensures j >= 0 ==> reps[j].path == k && k in Apply(entries, reps) && Apply(entries, reps)[k] == reps[j].entry
    ensures j < 0 ==> (k in Apply(entries, reps) <==> k in entries)
    ensures j < 0 && k in entries ==> Apply(entries, reps)[k] == entries[k]
  {
    if reps == [] {
      j := -1;
    } else if reps[|reps| - 1].path == k {
      j := |reps| - 1;
    } else {
      j := LastWrite(entries, reps[..|reps| - 1], k);
    }
  }

  lemma ApplyNothing(entries: Entries, reps: seq<Replacement>)
    ensures Apply(entries, reps[..0]) == entries
  {
  }

  lemma ApplyOne(entries: Entries, reps: seq<Replacement>, i: nat)
    requires i < |reps|
    ensures Apply(entries, reps[..i + 1]) == Apply(entries, reps[..i])[reps[i].path := reps[i].entry]
  {
    assert reps[..i + 1][..i] == reps[..i];
  }

  /** No prefix of a plan that overwrites only tombstones retains more than its start and its end together. */
  lemma ApplyPeak(entries: Entries, reps: seq<Replacement>, i: nat)
    requires OverwritesTombstones(reps) && i <= |reps|
    ensures Usage(Apply(entries, reps[..i])) <= Usage(Apply(entries, reps)) + Usage(entries)
  {
    var mid, end := Apply(entries, reps[..i]), Apply(entries, reps);
    forall k | k in mid
      ensures EntryUsage(k, mid[k]) <=
              (if k in end then EntryUsage(k, end[k]) else 0) + (if k in entries then EntryUsage(k, entries[k]) else 0)
    {
      var j := LastWrite(entries, reps[..i], k);
      var n := LastWrite(entries, reps, k);
    }
    SumCovered(mid, end, entries, EntryUsage);
  }

  /** The most any prefix of a list of replacements retains. */
  ghost function Peak(entries: Entries, reps: seq<Replacement>): nat
  {
    if reps == [] then Usage(entries)
    else
      var before, end := Peak(entries, reps[..|reps| - 1]), Usage(Apply(entries, reps));
      if before > end then before else end
  }

  lemma {:induction false} PeakCovers(entries: Entries, reps: seq<Replacement>, i: nat)
    requires i <= |reps|
    ensures Usage(Apply(entries, reps[..i])) <= Peak(entries, reps)
  {
    hide Usage, Apply;
    if i < |reps| {
      assert reps[..|reps| - 1][..i] == reps[..i];
      PeakCovers(entries, reps[..|reps| - 1], i);
    } else if reps == [] {
      ApplyNothing(entries, reps);
    } else {
      assert reps[..i] == reps;
    }
  }

  /** A prefix at which the peak is reached. */
  lemma {:induction false} PeakAt(entries: Entries, reps: seq<Replacement>) returns (i: nat)
    ensures i <= |reps| && Peak(entries, reps) == Usage(Apply(entries, reps[..i]))
  {
    hide Usage, Apply;
    if reps == [] {
      ApplyNothing(entries, reps);
      i := 0;
    } else {
      i := PeakAt(entries, reps[..|reps| - 1]);
      assert reps[..|reps| - 1][..i] == reps[..i] && reps[..|reps|] == reps;
      if Peak(entries, reps) != Peak(entries, reps[..|reps| - 1]) { i := |reps|; }
    }
  }

  lemma PeakBound(entries: Entries, reps: seq<Replacement>)
    requires OverwritesTombstones(reps)
    ensures Peak(entries, reps) <= Usage(Apply(entries, reps)) + Usage(entries)
  {
    hide Usage, Apply, OverwritesTombstones, Peak;
    var i := PeakAt(entries, reps);
    ApplyPeak(entries, reps, i);
  }

  /** Two maps that agree outside the keys a plan writes end up equal. */
  lemma {:induction false} ApplyForgets(a: Entries, b: Entries, reps: seq<Replacement>)
    requires forall k :: !Writes(reps, k) ==> Look1(a, k) == Look1(b, k)
    ensures Apply(a, reps) == Apply(b, reps)
  {
    var x, y := Apply(a, reps), Apply(b, reps);
    forall k ensures Look1(x, k) == Look1(y, k) {
      var i := LastWrite(a, reps, k);
      var j := LastWrite(b, reps, k);
      assert i < 0 ==> !Writes(reps, k);
    }
    forall k ensures k in x <==> k in y {
      assert Look1(x, k) == Look1(y, k);
    }
    forall k | k in x ensures x[k] == y[k] {
      assert Look1(x, k) == Look1(y, k);
    }
  }

  ghost predicate Writes(reps: seq<Replacement>, k: Path)
  {
    exists i :: 0 <= i < |reps| && reps[i].path == k
  }

  function Look1(m: Entries, k: Path): Option<Entry>
  {
    if k in m then Some(m[k]) else None
  }

  /** `replaced` holds the current usage of exactly the keys written so far. */
  ghost predicate Tracks(start: Entries, now: Entries, replaced: map<Path, nat>)
  {
    && (forall k :: k in replaced ==> k in now && replaced[k] == EntryUsage(k, now[k]))
    && (forall k :: k !in replaced ==> Look1(now, k) == Look1(start, k))
  }

  /** A saturated total trails the true one by no more than the peak's excess over 64 bits. */
  ghost predicate Trails(projected: nat, total: nat, peak: nat)
  {
    projected <= total <= projected + SatSub(peak, U64_MAX)
  }

  lemma ReplaceStep(start: Entries, now: Entries, replaced: map<Path, nat>,
                    projected: nat, peak: nat, path: Path, entry: Entry)
    requires Tracks(start, now, replaced) && Trails(projected, Usage(now), peak)
    requires Usage(now[path := entry]) <= peak
    ensures Tracks(start, now[path := entry], replaced[path := EntryUsage(path, entry)])
    ensures
      var oldUsage := if path in replaced then replaced[path]
                      else if path in start then EntryUsage(path, start[path]) else 0;
      Trails(SatAdd(SatSub(projected, oldUsage), EntryUsage(path, entry)), Usage(now[path := entry]), peak)
  {
    SumUpdate(now, EntryUsage, path, entry);
    assert path !in replaced ==> Look1(now, path) == Look1(start, path);
    forall k | k !in replaced[path := EntryUsage(path, entry)]
      ensures Look1(now[path := entry], k) == Look1(start, k)
    {
      assert Look1(now, k) == Look1(start, k);
    }
  }

  class OverlayState {
    var entries: Entries
    var memoryUsage: nat

    /** The estimate is exactly what the entries retain. */
    ghost predicate Accounted()
      reads this
    {
      memoryUsage == Usage(entries) <= U64_MAX
    }

    constructor ()
      ensures entries == map[] && memoryUsage == 0 && Accounted()
    {
      entries := map[];
      memoryUsage := 0;
    }

    method Remove(p: Path) returns (removed: Option<Entry>)
      requires Accounted()
      modifies this
      ensures Accounted()
      ensures entries == old(entries) - {p}
      ensures removed == if p in old(entries) then Some(old(entries)[p]) else None
    {
      if p in entries {
        SumRemove(entries, EntryUsage, p);
        removed := Some(entries[p]);
        memoryUsage := SatSub(memoryUsage, EntryUsage(p, entries[p]));
        entries := entries - {p};
      } else {
        removed := None;
        assert entries - {p} == entries;
      }
    }

    function ProjectedUsage(p: Path, e: Entry): nat
      reads this
    {
      SatAdd(SatSub(memoryUsage, if p in entries then EntryUsage(p, entries[p]) else 0), EntryUsage(p, e))
    }

    lemma ProjectedIsExact(p: Path, e: Entry)
      requires Accounted()
      ensures ProjectedUsage(p, e) == Capped(Usage(entries[p := e]))
    {
      SumUpdate(entries, EntryUsage, p, e);
    }

    method Insert(p: Path, e: Entry, limit: nat) returns (r: Result<()>)
      requires Accounted()
      modifies this
      ensures memoryUsage == Capped(Usage(entries)) && (limit < U64_MAX ==> Accounted())
      ensures r == if Capped(Usage(old(entries)[p := e])) <= limit then Ok(()) else Err(MemoryLimit)
      ensures entries == if r.Ok? then old(entries)[p := e] else old(entries)
      ensures if r.Ok? then memoryUsage <= limit else unchanged(this)
    {
      ProjectedIsExact(p, e);
      var projected := ProjectedUsage(p, e);
      if projected > limit {
        r := Err(MemoryLimit);
      } else {
        entries := entries[p := e];
        memoryUsage := projected;
        r := Ok(());
      }
    }

    method InsertUnchecked(p: Path, e: Entry)
      requires Accounted()
      modifies this
      ensures memoryUsage == Capped(Usage(entries)) && entries == old(entries)[p := e]
    {
      ProjectedIsExact(p, e);
      memoryUsage := ProjectedUsage(p, e);
      entries := entries[p := e];
    }

    /** Extends an overlay file in place; `Ok(false)` when there is none. */
    method AppendFile(p: Path, data: Bytes, limit: nat) returns (r: Result<bool>)
      requires Accounted()
      modifies this
      ensures memoryUsage == Capped(Usage(entries)) && (limit < U64_MAX ==> Accounted())
      ensures r == if !(p in old(entries) && old(entries)[p].FileEntry?) then Ok(false)
                   else if SatAdd(old(memoryUsage), |data|) <= limit then Ok(true)
                   else Err(MemoryLimit)
      ensures entries == if r == Ok(true) then old(entries)[p := FileEntry(old(entries)[p].content + data)]
                         else old(entries)
      ensures if r == Ok(true) then memoryUsage <= limit else unchanged(this)
    {
      if p !in entries || !entries[p].FileEntry? {
        return Ok(false);
      }
      var projected := SatAdd(memoryUsage, |data|);
      if projected > limit {
        return Err(MemoryLimit);
      }
      var extended := FileEntry(entries[p].content + data);
      SumUpdate(entries, EntryUsage, p, extended);
      entries := entries[p := extended];
      memoryUsage := projected;
      return Ok(true);
    }

    /** Checks replacing `p` with a file of `contentLen` bytes before the file is built. */
    method CheckFileReplacement(p: Path, contentLen: nat, limit: nat) returns (r: Result<()>)
      requires Accounted()
      ensures forall content: Bytes :: |content| == contentLen ==>
        (r == if Capped(Usage(entries[p := FileEntry(content)])) <= limit then Ok(()) else Err(MemoryLimit))
    {
      var oldUsage := if p in entries then EntryUsage(p, entries[p]) else 0;
      var newUsage := SatAdd(BaseUsage(p), contentLen);
      var projected := SatAdd(SatSub(memoryUsage, oldUsage), newUsage);
      r := if projected > limit then Err(MemoryLimit) else Ok(());
      forall content: Bytes | |content| == contentLen
        ensures r == if Capped(Usage(entries[p := FileEntry(content)])) <= limit then Ok(()) else Err(MemoryLimit)
      {
        ProjectedIsExact(p, FileEntry(content));
      }
    }
  
    /**
     * Checks a list of replacements as one update by the usage it would end
     * with.  A fitting one is never refused; one that does not fit is, unless a
     * prefix would pass 64 bits by as much as the end passes the limit.
     */
    method CheckReplacements(reps: seq<Replacement>, limit: nat) returns (r: Result<()>)
      requires Accounted()
      ensures r == Ok(()) || r == Err(MemoryLimit)
      ensures Usage(Apply(entries, reps)) <= limit ==> r.Ok?
      ensures Usage(Apply(entries, reps)) > limit + SatSub(Peak(entries, reps), U64_MAX) ==> r.Err?
      // in particular it is exact for plans that overwrite only their own tombstones
      ensures OverwritesTombstones(reps) && memoryUsage <= limit < HALF_U64 ==>
        (r.Ok? <==> Usage(Apply(entries, reps)) <= limit)
    {
      hide Usage, EntryUsage;
      var projected: nat := memoryUsage;
      var replaced: map<Path, nat> := map[];
      ghost var peak := Peak(entries, reps);
      PeakCovers(entries, reps, 0);
      for i := 0 to |reps|
        invariant Tracks(entries, Apply(entries, reps[..i]), replaced)
        invariant Trails(projected, Usage(Apply(entries, reps[..i])), peak)
      {
        var Replacement(path, entry) := reps[i];
        ApplyOne(entries, reps, i);
        PeakCovers(entries, reps, i + 1);
        ReplaceStep(entries, Apply(entries, reps[..i]), replaced, projected, peak, path, entry);
        var oldUsage := if path in replaced then replaced[path]
                        else if path in entries then EntryUsage(path, entries[path]) else 0;
        var newUsage := EntryUsage(path, entry);
        projected := SatAdd(SatSub(projected, oldUsage), newUsage);
        replaced := replaced[path := newUsage];
      }
      assert reps[..|reps|] == reps;
      if OverwritesTombstones(reps) { PeakBound(entries, reps); }
      r := if projected > limit then Err(MemoryLimit) else Ok(());
    }
  }
}
