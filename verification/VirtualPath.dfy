/** Lexical normalization of virtual paths, and stripping a mount's prefix from one. */
module VirtualPath {
  import opened Paths
  import opened Keys

  const DOT: Byte := 46

  predicate Droppable(segment: Bytes)
  {
    segment == [] || segment == [DOT]
  }

  /** One segment's effect on the components so far. */
  function Visit(stack: Path, segment: Bytes): Path
  {
    if Droppable(segment) then stack
    else if segment == [DOT, DOT] then (if stack == [] then [] else Parent(stack))
    else stack + [segment]
  }

  /** The components a list of segments leads to from the root. */
  function Resolve(segments: seq<Bytes>): Path
  {
    if segments == [] then []
    else Visit(Resolve(segments[..|segments| - 1]), segments[|segments| - 1])
  }

  /** A component a normalized path can hold. */
  predicate Proper(n: Name)
  {
    ValidName(n) && n != [DOT] && n != [DOT, DOT]
  }

  predicate ProperPath(p: Path)
  {
    forall i :: 0 <= i < |p| ==> Proper(p[i])
  }

  /** Each component behind a slash; nothing for the root. */
  function Spell(p: Path): Bytes
  {
    if p == [] then [] else Spell(Parent(p)) + [SLASH] + Last(p)
  }

  /** The absolute path naming these components. */
  function Render(p: Path): Bytes
  {
    if p == [] then [SLASH] else Spell(p)
  }

  lemma {:induction false} SpellKey(p: Path)
    requires p != []
    ensures Spell(p) == [SLASH] + Key(p)
  {
    if |p| > 1 {
      SpellKey(Parent(p));
    }
  }

  lemma {:induction false} ResolveProper(segments: seq<Bytes>)
    requires forall i :: 0 <= i < |segments| ==> SLASH !in segments[i]
    ensures ProperPath(Resolve(segments))
  {
    if segments != [] {
      ResolveProper(segments[..|segments| - 1]);
    }
  }

  /** The components of a virtual path. */
  function Components(path: Bytes): (p: Path)
    ensures ProperPath(p)
  {
    SplitPieces(path);
    ResolveProper(Split(path));
    Resolve(Split(path))
  }

  /** Recognizes a path that can be returned as it is. */
  predicate IsNormalized(path: Bytes)
  {
    || path == [SLASH]
    || (path != [] && path[0] == SLASH && path[|path| - 1] != SLASH
        && forall i :: 1 <= i < |Split(path)| ==> Split(path)[i] !in {[], [DOT], [DOT, DOT]})
  }

  lemma {:induction false} ResolveKept(p: Path)
    requires ProperPath(p)
    ensures Resolve([[]] + p) == p
  {
    if p != [] {
      ResolveKept(Parent(p));
      assert ([[]] + p)[..|p|] == [[]] + Parent(p);
    }
  }

  /** A normalized path is exactly a rendered list of proper components, which are its components. */
  lemma NormalizedIsRendered(path: Bytes)
    ensures IsNormalized(path) <==> path == Render(Components(path))
  {
    if IsNormalized(path) {
      if path == [SLASH] {
        RootComponents();
      } else {
        SplitRooted(path);
        var rest := Split(path[1..]);
        SplitPieces(path);
        assert forall i :: 0 <= i < |rest| ==> rest[i] == Split(path)[i + 1];
        ResolveKept(rest);
        KeySplit(path[1..]);
        SpellKey(rest);
        assert path == [path[0]] + path[1..];
      }
    } else {
      RenderedIsNormalized(Components(path));
    }
  }

  lemma RootComponents()
    ensures Components([SLASH]) == []
  {
    var pieces := Split([SLASH]);
    var none: Bytes := [];
    assert [SLASH][1..] == none && Split(none) == [none];
    assert pieces == [none, none];
    var first: seq<Bytes> := pieces[..1];
    assert first[..0] == [] && Resolve(first) == [];
  }

  lemma SplitRooted(path: Bytes)
    requires path != [] && path[0] == SLASH
    ensures Split(path) == [[]] + Split(path[1..])
  {
  }

  lemma SplitRendered(p: Path)
    requires ProperPath(p) && p != []
    ensures Split(Render(p)) == [[]] + p && Render(p) == [SLASH] + Key(p)
  {
    SpellKey(p);
    SplitKey(p);
    assert Render(p)[1..] == Key(p);
  }

  lemma {:induction false} KeyEnd(p: Path)
    requires ProperPath(p) && p != []
    ensures Key(p) != [] && Key(p)[|Key(p)| - 1] != SLASH
  {
    var last := Last(p);
    assert Key(p)[|Key(p)| - 1] == last[|last| - 1] && last[|last| - 1] in last;
  }

  lemma ShapeIsNormal(path: Bytes, rest: Bytes, p: Path)
    requires path == [SLASH] + rest && rest != [] && rest[|rest| - 1] != SLASH
    requires Split(path) == [[]] + p && ProperPath(p)
    ensures IsNormalized(path)
  {
    hide Split;
    assert path[|path| - 1] == rest[|rest| - 1];
    forall i | 1 <= i < |Split(path)| ensures Split(path)[i] !in {[], [DOT], [DOT, DOT]} {
      assert Split(path)[i] == p[i - 1] && Proper(p[i - 1]);
    }
  }

  /** Rendering proper components gives a normalized path that resolves to them. */
  lemma RenderedIsNormalized(p: Path)
    requires ProperPath(p)
    ensures IsNormalized(Render(p)) && Components(Render(p)) == p
  {
    if p == [] {
      RootComponents();
    } else {
      hide Key, Split, Render, Resolve, IsNormalized, ProperPath;
      SplitRendered(p);
      KeyEnd(p);
      ShapeIsNormal(Render(p), Key(p), p);
      ResolveKept(p);
    }
  }

  /** Normalizes a path, returning one already in normal form unchanged. */
  method Normalize(path: Bytes) returns (r: Bytes)
    ensures r == Render(Components(path))
    ensures IsNormalized(r) && Components(r) == Components(path)
  {
    NormalizedIsRendered(path);
    RenderedIsNormalized(Components(path));
    if IsNormalized(path) {
      return path;
    }
    hide IsNormalized, Resolve, Spell;
    var segments := Split(path);
    SplitPieces(path);
    var out: Bytes := [];
    ResolveStart(segments);
    for i := 0 to |segments|
      invariant out == Spell(Resolve(segments[..i]))
    {
      var segment := segments[i];
      VisitSpells(segments, i);
      if Droppable(segment) {
      } else if segment == [DOT, DOT] {
        var cut := LastSlash(out);
        out := out[..if cut < 0 then 0 else cut];
      } else {
        out := out + [SLASH] + segment;
      }
    }
    assert segments[..|segments|] == segments;
    SpellEmpty(Components(path));
    if out == [] {
      out := [SLASH];
    }
    return out;
  }

  lemma ResolveStart(segments: seq<Bytes>)
    ensures Spell(Resolve(segments[..0])) == []
  {
  }

  /** Each segment's edit of the string is its edit of the components. */
  lemma VisitSpells(segments: seq<Bytes>, i: nat)
    requires i < |segments| && forall j :: 0 <= j < |segments| ==> SLASH !in segments[j]
    ensures
      var out, after, segment := Spell(Resolve(segments[..i])), Spell(Resolve(segments[..i + 1])), segments[i];
      if Droppable(segment) then after == out
      else if segment == [DOT, DOT] then after == out[..if LastSlash(out) < 0 then 0 else LastSlash(out)]
      else after == out + [SLASH] + segment
  {
    var stack := Resolve(segments[..i]);
    ResolveProper(segments[..i]);
    assert segments[..i + 1][..i] == segments[..i];
    LastSlashOf(stack);
    assert Parent(stack + [segments[i]]) == stack;
    if stack != [] { assert Spell(stack)[..|Spell(Parent(stack))|] == Spell(Parent(stack)); }
  }

  lemma SpellEmpty(p: Path)
    ensures Spell(p) == [] <==> p == []
  {
  }

  /** The last slash of a spelled path is the one before its last component. */
  lemma LastSlashOf(p: Path)
    requires ProperPath(p)
    ensures p == [] ==> LastSlash(Spell(p)) == -1
    ensures p != [] ==> LastSlash(Spell(p)) == |Spell(Parent(p))|
  {
    if p != [] {
      var s, i := Spell(p), LastSlash(Spell(p));
      var n := |Spell(Parent(p))|;
      assert s[n] == SLASH && s[n + 1..] == Last(p);
      assert forall j :: n < j < |s| ==> s[j] in s[n + 1..];
      assert SLASH !in Last(p);
    }
  }

  /** What one more segment does: a name goes below, two dots go up but never above the root, a dot or nothing stays. */
  lemma ComponentsStep(path: Bytes, segment: Bytes)
    requires SLASH !in segment
    ensures
      var p, q := Components(path), Components(path + [SLASH] + segment);
      && (segment == [] || segment == [DOT] ==> q == p)
      && (segment == [DOT, DOT] ==> q == if p == [] then [] else p[..|p| - 1])
      && (Proper(segment) ==> q == p + [segment])
    ensures Components([]) == []
  {
    var none: Bytes := [];
    assert Split(none) == [none];
    assert [none][..0] == [];
    SplitConcat(path, segment);
    SplitWhole(segment);
    var segments := Split(path + [SLASH] + segment);
    assert segments[..|segments| - 1] == Split(path) && segments[|segments| - 1] == segment;
  }

  /** Normalizing twice changes nothing more. */
  lemma NormalizeIdempotent(path: Bytes)
    ensures Render(Components(Render(Components(path)))) == Render(Components(path))
  {
    RenderedIsNormalized(Components(path));
  }

  // ---- mount prefixes -----------------------------------------------------

  /** Whether a path goes on with a slash after the mount's. */
  predicate Continues(path: Bytes, mount: Bytes)
  {
    mount <= path && |mount| < |path| && path[|mount|] == SLASH
  }

  /** Whether a normalized path falls under a normalized mount path. */
  predicate PathMatchesMount(path: Bytes, mount: Bytes)
  {
    || mount == [SLASH]
    || path == mount
    || Continues(path, mount)
  }

  /** The mount-relative key of a normalized path. */
  function StripMountPrefix(path: Bytes, mount: Bytes): Option<Bytes>
  {
    if mount == [SLASH] then
      Some(if path != [] && path[0] == SLASH then path[1..] else path)
    else if path == mount then Some([])
    else if Continues(path, mount) then Some(path[|mount| + 1..])
    else None
  }

  /** On strings and on components a mount covers the same paths, and stripping leaves the rest's key. */
  lemma MatchIsPrefix(p: Path, m: Path)
    requires ProperPath(p) && ProperPath(m)
    ensures PathMatchesMount(Render(p), Render(m)) <==> m <= p
    ensures StripMountPrefix(Render(p), Render(m)) == if m <= p then Some(Key(p[|m|..])) else None
  {
    hide Spell, Key, Proper;
    if p != [] { SpellKey(p); }
    if m == [] {
      assert p[|m|..] == p;
      KeyOfRoot();
      if p == [] { assert [SLASH][1..] == []; } else { DropSlash(Key(p), 0); }
    } else {
      SpellKey(m);
      NotRoot(m);
      if p != [] {
        NotRoot(p);
        MatchEqual(p, m);
        MatchBelow(p, m);
        assert m <= p <==> m == p || m < p;
        KeyOfRoot();
        assert m == p ==> p[|m|..] == [];
      }
    }
  }

  lemma KeyOfRoot()
    ensures Key([]) == []
  {
  }

  lemma NotRoot(p: Path)
    requires ProperPath(p) && p != []
    ensures Spell(p) != [SLASH] && ValidPath(p)
  {
    SpellKey(p);
    KeyEmpty(p);
  }

  lemma MatchEqual(p: Path, m: Path)
    requires ValidPath(p) && ValidPath(m)
    ensures [SLASH] + Key(p) == [SLASH] + Key(m) <==> p == m
  {
    if [SLASH] + Key(p) == [SLASH] + Key(m) {
      assert ([SLASH] + Key(p))[1..] == Key(p) && ([SLASH] + Key(m))[1..] == Key(m);
      KeyInjective(p, m);
    }
  }

  /** A prefix followed by a slash, before and after putting a slash in front. */
  lemma SlashFollows(a: Bytes, b: Bytes)
    ensures
      var path, mount := [SLASH] + a, [SLASH] + b;
      Continues(path, mount) <==> b + [SLASH] <= a
  {
    var path, mount := [SLASH] + a, [SLASH] + b;
    assert path[1..] == a && mount[1..] == b;
    if b + [SLASH] <= a {
      assert a[..|b|] == b && path[..|mount|] == mount;
    }
    if Continues(path, mount) {
      assert a[..|b| + 1] == b + [SLASH];
    }
  }

  lemma MatchBelow(p: Path, m: Path)
    requires ValidPath(p) && ValidPath(m) && p != [] && m != []
    ensures
      var path, mount := [SLASH] + Key(p), [SLASH] + Key(m);
      && (Continues(path, mount) <==> m < p)
      && (m < p ==> path[|mount| + 1..] == Key(p[|m|..]))
  {
    hide Key, Continues, ValidPath;
    KeyPrefix(m, p);
    SlashFollows(Key(p), Key(m));
    if m < p {
      DirectChild(m, p);
      DropSlash(Key(p), |Key(m)| + 1);
    }
  }

  lemma DropSlash(a: Bytes, n: nat)
    requires n <= |a|
    ensures ([SLASH] + a)[n + 1..] == a[n..]
  {
  }
}
