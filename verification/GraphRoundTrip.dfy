/** Decoding what was encoded: the same graph again, sharing included. */
module GraphRoundTrip {
  import opened GraphArena
  import opened GraphCycles
  import opened GraphDecode
  import opened GraphModel
  import opened GraphPush

  /** `w` is what decoding makes of a node that stands for `v`. */
  ghost predicate Comes(h: Heap, e: Enc, v: Value, w: Value)
  {
    exists id: Id :: Encodes(h, e, ValueChild(v), id) && w == DecodedValue(e.graph[id], id)
  }

  ghost predicate Echo(h: Heap, e: Enc, vs: seq<Value>, ws: seq<Value>)
  {
    |ws| == |vs| && forall i :: 0 <= i < |vs| ==> Comes(h, e, vs[i], ws[i])
  }

  ghost function Paired(vs: seq<Value>): (r: Entries)
    ensures |r| == |vs| / 2
    ensures forall i :: 0 <= i < |r| ==> r[i] == (vs[2 * i], vs[2 * i + 1])
  {
    seq(|vs| / 2, i requires 0 <= i < |vs| / 2 => (vs[2 * i], vs[2 * i + 1]))
  }

  /** A container made of these members: a set or map holds each member or key once, a plain object becomes a map. */
  ghost function Rebuilt(kind: Kind, ws: seq<Value>): Shape
  {
    if kind == Set then Container(Set, Deduped(ws))
    else if kind in {Map, PlainObject} then Container(Map, Flat(Mapped(Paired(ws))))
    else Container(kind, ws)
  }

  lemma FlatPaired(vs: seq<Value>)
    requires |vs| % 2 == 0
    ensures Flat(Paired(vs)) == vs
  {
    hide Flat, Paired;
    var es := Paired(vs);
    var flat := Flat(es);
    forall k | 0 <= k < |vs| ensures flat[k] == vs[k] {
      var i := k / 2;
      assert es[i] == (vs[2 * i], vs[2 * i + 1]) && (k == 2 * i || k == 2 * i + 1);
    }
  }

  lemma PairedFlat(es: Entries)
    ensures Paired(Flat(es)) == es
  {
    hide Flat, Paired;
    forall i | 0 <= i < |es| ensures Paired(Flat(es))[i] == es[i] {
      assert Paired(Flat(es))[i] == (Flat(es)[2 * i], Flat(es)[2 * i + 1]);
    }
  }

  /** Wherever a leaf stands, it comes back with its meaning. */
  lemma LeafComes(h: Heap, e: Enc, l: Leaf, w: Value)
    requires Comes(h, e, LeafValue(l), w)
    ensures w.LeafValue? && LeafBack(l, w.leaf)
  {
    hide LeafBack, EncodeLeaf, DecodeLeaf;
    LeafMeaning(l);
  }

  // ---- members ------------------------------------------------------------------

  lemma ValuesEcho(h: Heap, e: Enc, vs: seq<Value>, ids: seq<Id>)
    requires AllEncoded(h, e, ValueChildren(vs), ids)
    ensures IdsBelow(ids, |e.graph|) && Echo(h, e, vs, Values(e.graph, ids))
  {
    hide Encodes, DecodedValue;
    forall i | 0 <= i < |ids| ensures ids[i] < |e.graph| && Encodes(h, e, ValueChild(vs[i]), ids[i]) {
      assert Encodes(h, e, ValueChildren(vs)[i], ids[i]);
      EncodedBelow(h, e, ValueChild(vs[i]), ids[i]);
    }
  }

  lemma EncodedBelow(h: Heap, e: Enc, c: Child, id: Id)
    requires Encodes(h, e, c, id)
    ensures id < |e.graph|
  {
  }

  lemma EntriesEcho(h: Heap, e: Enc, vs: seq<Value>, pairs: Pairs)
    requires PairsEncoded(h, e, vs, pairs) && |vs| % 2 == 0
    ensures PairsBelow(pairs, |e.graph|) && Echo(h, e, vs, Flat(EntriesOf(e.graph, pairs)))
  {
    hide Encodes, DecodedValue, Flat;
    forall i | 0 <= i < |pairs|
      ensures pairs[i].0 < |e.graph| && pairs[i].1 < |e.graph|
    {
      EncodedBelow(h, e, ValueChild(vs[2 * i]), pairs[i].0);
      EncodedBelow(h, e, ValueChild(vs[2 * i + 1]), pairs[i].1);
    }
    var es := EntriesOf(e.graph, pairs);
    var ws := Flat(es);
    forall k | 0 <= k < |vs| ensures Comes(h, e, vs[k], ws[k]) {
      var i := k / 2;
      assert Encodes(h, e, ValueChild(vs[2 * i]), pairs[i].0) && Encodes(h, e, ValueChild(vs[2 * i + 1]), pairs[i].1);
      assert ws[2 * i] == es[i].0 && ws[2 * i + 1] == es[i].1;
      assert k == 2 * i || k == 2 * i + 1;
    }
  }

  /** Attributes as pairs of a string and a value. */
  ghost predicate WellNamed(attrs: seq<Value>)
  {
    && |attrs| % 2 == 0
    && forall i :: 0 <= i < |attrs| / 2 ==> attrs[2 * i].LeafValue? && attrs[2 * i].leaf.Text?
  }

  lemma AttrsEcho(h: Heap, e: Enc, attrs: seq<Value>, pairs: Pairs)
    requires WellNamed(attrs) && PairsEncoded(h, e, attrs, pairs)
    ensures PairsBelow(pairs, |e.graph|) && Echo(h, e, attrs, Flat(EntriesOf(e.graph, Named(e.graph, pairs))))
  {
    hide Echo, Flat, EntriesOf, EncodesClass;
    EntriesEcho(h, e, attrs, pairs);
    forall i | 0 <= i < |pairs| ensures IsName(e.graph, pairs[i].0) {
      assert Encodes(h, e, ValueChild(attrs[2 * i]), pairs[i].0);
    }
    AllNamed(e.graph, pairs);
  }

  // ---- one object -----------------------------------------------------------------

  /** An object as it is read: map entries and attributes in pairs. */
  ghost predicate JsObject(h: Heap, s: Spot)
  {
    match s
    case AsClass(r) => r in h.classes && WellNamed(h.classes[r].attrs)
    case AsValue(r) =>
      && r in h.shapes
      && match h.shapes[r]
         case Container(kind, items) => kind in {Map, PlainObject} ==> |items| % 2 == 0
         case Module(_, _, attrs) => WellNamed(attrs)
         case Instance(_, _, attrs) => WellNamed(attrs)
         case _ => false
  }

  /** The class object an instance comes back with: one decoded for its class, or for a copy of it. */
  ghost predicate ClassBack(h: Heap, e: Enc, d: Heap, cls: Ref, back: Ref, c: Id)
  {
    && back == ClassRef(c) && Encodes(h, e, ClassChild(cls), c)
    && cls in h.classes && back in d.classes && d.classes[back].header.id == h.classes[cls].header.id
    && d.classes[back].header in Headers(h)
  }

  ghost predicate ContainerComes(h: Heap, e: Enc, kind: Kind, items: seq<Value>, back: Shape)
  {
    exists ws :: Echo(h, e, items, ws) && back == Rebuilt(kind, ws)
  }

  /** What a finished object comes back as: its own kind, over what its members come back as. */
  ghost predicate Mirrors(h: Heap, e: Enc, d: Heap, s: Spot)
  {
    && Settled(e, s)
    && match s
       case AsClass(r) =>
         && r in h.classes && ClassRef(e.memo[r].id) in d.classes
         && var back := d.classes[ClassRef(e.memo[r].id)];
            && Echo(h, e, h.classes[r].attrs, back.attrs) && back.header.id == h.classes[r].header.id
            && (back.attrs != [] ==> back.header == h.classes[r].header) && back.header in Headers(h)
       case AsValue(r) =>
         && r in h.shapes && ValueRef(e.memo[r].id) in d.shapes
         && var back := d.shapes[ValueRef(e.memo[r].id)];
            match h.shapes[r]
            case Container(kind, items) => ContainerComes(h, e, kind, items, back)
            case Module(name, id, attrs) =>
              back.Module? && back.name == name && back.id == id && Echo(h, e, attrs, back.attrs)
            case Instance(cls, id, attrs) =>
              && back.Instance? && back.id == id && Echo(h, e, attrs, back.attrs)
              && exists c :: ClassBack(h, e, d, cls, back.class_, c)
            case _ => false
  }

  lemma ContainerBack(h: Heap, e: Enc, built: seq<Value>, d: Heap, r: Ref)
    requires MemoShows(h, e) && Decoded(e.graph, |e.graph|, built, d)
    requires Settled(e, AsValue(r)) && InRole(e, AsValue(r)) && JsObject(h, AsValue(r)) && h.shapes[r].Container?
    ensures Mirrors(h, e, d, AsValue(r))
  {
    hide AllEncoded, PairsEncoded, Echo, WellNamed;
    var node, items := e.graph[e.memo[r].id], h.shapes[r].items;
    assert NodeShows(h, e, r, node);
    var back := d.shapes[ValueRef(e.memo[r].id)];
    if node.SeqNode? {
      ValuesEcho(h, e, items, node.ids);
      assert back == Rebuilt(h.shapes[r].kind, Values(e.graph, node.ids));
    } else {
      EntriesEcho(h, e, items, node.pairs);
      var es := EntriesOf(e.graph, node.pairs);
      PairedFlat(es);
      assert back == Rebuilt(h.shapes[r].kind, Flat(es));
    }
  }

  lemma ModuleBack(h: Heap, e: Enc, built: seq<Value>, d: Heap, r: Ref)
    requires MemoShows(h, e) && Decoded(e.graph, |e.graph|, built, d)
    requires Settled(e, AsValue(r)) && InRole(e, AsValue(r)) && JsObject(h, AsValue(r)) && h.shapes[r].Module?
    ensures Mirrors(h, e, d, AsValue(r))
  {
    hide AllEncoded, PairsEncoded, Echo, WellNamed, Named;
    var node := e.graph[e.memo[r].id];
    assert NodeShows(h, e, r, node);
    AttrsEcho(h, e, h.shapes[r].attrs, node.attrs);
  }

  /** A class's id decodes to a class object with the class's id. */
  lemma ClassIdBack(h: Heap, e: Enc, built: seq<Value>, d: Heap, cls: Ref, c: Id)
    requires MemoShows(h, e) && Decoded(e.graph, |e.graph|, built, d)
    requires cls in h.classes && Encodes(h, e, ClassChild(cls), c) && e.graph[c].ClassNode?
    ensures ClassBack(h, e, d, cls, ClassRef(c), c)
  {
    hide AllEncoded, PairsEncoded, Named;
    if cls in e.memo && e.memo[cls] == Finished(c) { assert NodeShows(h, e, cls, e.graph[c]); }
  }

  lemma InstanceBack(h: Heap, e: Enc, built: seq<Value>, d: Heap, r: Ref)
    requires ArenaValid(e.graph) && MemoShows(h, e) && Decoded(e.graph, |e.graph|, built, d)
    requires Settled(e, AsValue(r)) && InRole(e, AsValue(r)) && JsObject(h, AsValue(r)) && h.shapes[r].Instance?
    requires h.shapes[r].class_ in h.classes
    ensures Mirrors(h, e, d, AsValue(r))
  {
    hide AllEncoded, PairsEncoded, Echo, WellNamed, Named, ClassBack, Encodes;
    var node := e.graph[e.memo[r].id];
    assert NodeShows(h, e, r, node) && NodeValid(e.graph, node, e.memo[r].id);
    AttrsEcho(h, e, h.shapes[r].attrs, node.attrs);
    ClassIdBack(h, e, built, d, h.shapes[r].class_, node.class_);
  }

  lemma ClassObjectBack(h: Heap, e: Enc, built: seq<Value>, d: Heap, r: Ref)
    requires MemoShows(h, e) && Decoded(e.graph, |e.graph|, built, d)
    requires Settled(e, AsClass(r)) && InRole(e, AsClass(r)) && JsObject(h, AsClass(r))
    ensures Mirrors(h, e, d, AsClass(r))
  {
    hide AllEncoded, Named, Encodes, Flat, EntriesOf;
    var node, attrs := e.graph[e.memo[r].id], h.classes[r].attrs;
    assert NodeShows(h, e, r, node);
    AttrsEcho(h, e, attrs, node.attrs);
    var back := d.classes[ClassRef(e.memo[r].id)];
    assert back == DecodeClass(e.graph, node);
  }

  // ---- images and merging ------------------------------------------------------------

  /** A leaf, or an object with its own node. */
  ghost predicate Plain(h: Heap, v: Value)
  {
    || v.LeafValue?
    || (v.Object? && v.ref in h.shapes && (h.shapes[v.ref].Container? || h.shapes[v.ref].Module? || h.shapes[v.ref].Instance?))
  }

  ghost predicate AllPlain(h: Heap, vs: seq<Value>)
  {
    forall i :: 0 <= i < |vs| ==> Plain(h, vs[i])
  }

  /** What a leaf, or a finished object with its own node, comes back as. */
  ghost function Image(e: Enc, v: Value): Value
  {
    match v
    case LeafValue(l) => LeafValue(DecodeLeaf(EncodeLeaf(l)))
    case Object(r) => if Settled(e, AsValue(r)) then Object(ValueRef(e.memo[r].id)) else v
    case Unsupported => v
  }

  ghost function Images(e: Enc, vs: seq<Value>): (r: seq<Value>)
    ensures |r| == |vs| && forall i :: 0 <= i < |vs| ==> r[i] == Image(e, vs[i])
  {
    seq(|vs|, i requires 0 <= i < |vs| => Image(e, vs[i]))
  }

  /** Such values come back as one thing wherever they stand: sharing is kept. */
  lemma ImageOf(h: Heap, e: Enc, v: Value, w: Value)
    requires MemoShows(h, e) && Plain(h, v) && Comes(h, e, v, w)
    ensures w == Image(e, v)
  {
    hide PairsEncoded, AllEncoded, EncodeLeaf, DecodeLeaf;
    var id: Id :| Encodes(h, e, ValueChild(v), id) && w == DecodedValue(e.graph[id], id);
    if v.Object? { assert NodeShows(h, e, v.ref, e.graph[id]); }
  }

  lemma EchoImages(h: Heap, e: Enc, vs: seq<Value>, ws: seq<Value>)
    requires MemoShows(h, e) && AllPlain(h, vs) && Echo(h, e, vs, ws)
    ensures ws == Images(e, vs)
  {
    hide MemoShows, Comes, Image, Plain;
    forall i | 0 <= i < |vs| ensures ws[i] == Image(e, vs[i]) {
      assert Plain(h, vs[i]) && Comes(h, e, vs[i], ws[i]);
      ImageOf(h, e, vs[i], ws[i]);
    }
  }

  /** Two values that come back as one: the same, or leaves that do. */
  ghost predicate Same(u: Value, v: Value)
  {
    u == v || (u.LeafValue? && v.LeafValue? && LeavesMerge(u.leaf, v.leaf))
  }

  /** A leaf, or an object finished as a value. */
  ghost predicate Known(h: Heap, e: Enc, v: Value)
  {
    v.LeafValue? || (Plain(h, v) && Settled(e, AsValue(v.ref)) && InRole(e, AsValue(v.ref)))
  }

  /** Nothing is split, and nothing merged but leaves. */
  lemma ImageInjective(h: Heap, e: Enc, u: Value, v: Value)
    requires Owned(e) && Known(h, e, u) && Known(h, e, v)
    ensures Image(e, u) == Image(e, v) <==> Same(u, v)
  {
    hide EncodeLeaf, DecodeLeaf, LeavesMerge;
    if u.LeafValue? && v.LeafValue? { LeavesApart(u.leaf, v.leaf); }
    if u.Object? { assert Holds(e, u.ref, e.memo[u.ref].id); }
    if v.Object? { assert Holds(e, v.ref, e.memo[v.ref].id); }
  }

  ghost predicate AllKnown(h: Heap, e: Enc, vs: seq<Value>)
  {
    forall i :: 0 <= i < |vs| ==> Known(h, e, vs[i])
  }

  ghost predicate KeptApart(vs: seq<Value>)
  {
    forall i, j :: 0 <= i < j < |vs| ==> !Same(vs[i], vs[j])
  }

  ghost predicate KeysKeptApart(es: Entries)
  {
    forall i, j :: 0 <= i < j < |es| ==> !Same(es[i].0, es[j].0)
  }

  /** No two members of a set, and no two keys of a map, come back as one. */
  ghost predicate Unmerged(kind: Kind, items: seq<Value>)
  {
    && (kind == Set ==> KeptApart(items))
    && (kind in {Map, PlainObject} ==> KeysKeptApart(Paired(items)))
  }

  lemma DistinctImages(h: Heap, e: Enc, vs: seq<Value>)
    requires Owned(e) && AllKnown(h, e, vs)
    ensures KeptApart(vs) <==> Distinct(Images(e, vs))
    ensures KeysKeptApart(Paired(vs)) <==> DistinctKeys(Paired(Images(e, vs)))
  {
    hide Owned, Image, Known, Same;
    forall i, j | 0 <= i < |vs| && 0 <= j < |vs| ensures Image(e, vs[i]) == Image(e, vs[j]) <==> Same(vs[i], vs[j]) {
      ImageInjective(h, e, vs[i], vs[j]);
    }
    var es, images := Paired(vs), Paired(Images(e, vs));
    forall i | 0 <= i < |es| ensures images[i].0 == Image(e, vs[2 * i]) && es[i].0 == vs[2 * i] {}
  }

  lemma FlatInjective(x: Entries, y: Entries)
    ensures Flat(x) == Flat(y) <==> x == y
  {
    hide Flat, Paired;
    PairedFlat(x);
    PairedFlat(y);
  }

  /** A container comes back member by member, a plain object as a map, exactly when nothing in it is merged. */
  lemma BackIsImage(h: Heap, e: Enc, kind: Kind, items: seq<Value>)
    requires Owned(e) && AllKnown(h, e, items) && (kind in {Map, PlainObject} ==> |items| % 2 == 0)
    ensures Rebuilt(kind, Images(e, items)) == Container(if kind == PlainObject then Map else kind, Images(e, items)) <==>
            Unmerged(kind, items)
  {
    hide Owned, AllKnown, Distinct, DistinctKeys, KeptApart, KeysKeptApart, Flat, Paired;
    DistinctImages(h, e, items);
    DedupedMeans(Images(e, items));
    var es := Paired(Images(e, items));
    MappedSame(es);
    if kind in {Map, PlainObject} {
      FlatPaired(Images(e, items));
      FlatInjective(Mapped(es), es);
    }
  }

  // ---- the whole arena ------------------------------------------------------------------

  /** The class of a finished instance is a class, no member of it being refused. */
  lemma InstanceClass(h: Heap, e: Enc, scope: iset<Spot>, r: Ref)
    requires Linked(h, e, scope) && Settled(e, AsValue(r)) && AsValue(r) in scope && r in h.shapes && h.shapes[r].Instance?
    ensures h.shapes[r].class_ in h.classes
  {
    assert !HoldsBad(h, AsValue(r));
    assert Convertible(h, ChildrenOf(h, AsValue(r))[0]);
  }

  lemma SettledMirrors(h: Heap, e: Enc, scope: iset<Spot>, built: seq<Value>, d: Heap, s: Spot)
    requires Sound(h, e, scope) && JsObject(h, s) && Decoded(e.graph, |e.graph|, built, d)
    requires Settled(e, s) && s in scope
    ensures Mirrors(h, e, d, s)
  {
    hide Mirrors, WellNamed, Decoded, Edge, ClassesShared, Owned, HoldsBad;
    assert InRole(e, s);
    match s {
      case AsClass(r) => ClassObjectBack(h, e, built, d, r);
      case AsValue(r) =>
        match h.shapes[r] {
          case Container(_, _) => ContainerBack(h, e, built, d, r);
          case Module(_, _, _) => ModuleBack(h, e, built, d, r);
          case Instance(_, _, _) =>
            InstanceClass(h, e, scope, r);
            InstanceBack(h, e, built, d, r);
        }
    }
  }

  /** The members of a finished container with their own nodes are known. */
  lemma MembersKnown(h: Heap, e: Enc, scope: iset<Spot>, r: Ref)
    requires Sound(h, e, scope) && Open(e) == {} && AsValue(r) in scope && Settled(e, AsValue(r))
    requires r in h.shapes && h.shapes[r].Container? && AllPlain(h, h.shapes[r].items)
    ensures AllKnown(h, e, h.shapes[r].items)
  {
    hide Inv, HoldsBad, InRole;
    var items := h.shapes[r].items;
    assert ChildrenOf(h, AsValue(r)) == ValueChildren(items);
    forall i | 0 <= i < |items| ensures Known(h, e, items[i]) {
      assert Plain(h, items[i]);
      if items[i].Object? {
        var k := AsValue(items[i].ref);
        assert k in Targets(h, ChildrenOf(h, AsValue(r))[i]);
        assert Edge(h, AsValue(r), k);
        assert k in scope;
      }
    }
  }

  /** What an arena says of one container whose members all have their own nodes. */
  ghost predicate Merges(h: Heap, e: Enc, d: Heap, s: Spot)
  {
    Settled(e, s) && s.AsValue? && s.ref in h.shapes && h.shapes[s.ref].Container? && AllPlain(h, h.shapes[s.ref].items) ==>
      var Container(kind, items) := h.shapes[s.ref];
      && ValueRef(e.memo[s.ref].id) in d.shapes
      && var back := d.shapes[ValueRef(e.memo[s.ref].id)];
      && back == Rebuilt(kind, Images(e, items))
      && (back == Container(if kind == PlainObject then Map else kind, Images(e, items)) <==> Unmerged(kind, items))
  }

  lemma SettledMerges(h: Heap, e: Enc, scope: iset<Spot>, d: Heap, s: Spot)
    requires Sound(h, e, scope) && Open(e) == {} && s in scope && JsObject(h, s) && Mirrors(h, e, d, s)
    ensures Merges(h, e, d, s)
  {
    hide Linked, RolesApart, ArenaValid, ClassesShared, Owned, MemoShows, AllPlain, Echo, Rebuilt, Images, Unmerged, WellNamed;
    if s.AsValue? && s.ref in h.shapes && h.shapes[s.ref].Container? && AllPlain(h, h.shapes[s.ref].items) {
      var Container(kind, items) := h.shapes[s.ref];
      var back := d.shapes[ValueRef(e.memo[s.ref].id)];
      var ws :| Echo(h, e, items, ws) && back == Rebuilt(kind, ws);
      EchoImages(h, e, items, ws);
      MembersKnown(h, e, scope, s.ref);
      BackIsImage(h, e, kind, items);
    }
  }

  /**
   * Decoding an arena, whatever was pushed into it: every finished object comes
   * back as one object of its kind over what its members come back as, no two
   * values come back as one object, and a container of leaves and objects with
   * nodes keeps all its members exactly when no two of its leaves come back as one.
   */
  lemma ArenaBack(h: Heap, e: Enc, scope: iset<Spot>, built: seq<Value>, d: Heap)
    requires Sound(h, e, scope) && Open(e) == {} && Decoded(e.graph, |e.graph|, built, d)
    requires forall s :: s in scope && Settled(e, s) ==> JsObject(h, s)
    ensures forall s :: s in scope && Settled(e, s) ==> Mirrors(h, e, d, s) && Merges(h, e, d, s)
    ensures forall s, t :: s in scope && t in scope && Settled(e, s) && Settled(e, t) && s.AsValue? && t.AsValue? ==>
      (e.memo[s.ref].id == e.memo[t.ref].id <==> s == t)
  {
    hide Linked, RolesApart, Decoded, JsObject, Mirrors, Merges, ArenaValid, MemoShows, ClassesShared;
    forall s | s in scope && Settled(e, s) ensures Mirrors(h, e, d, s) && Merges(h, e, d, s) {
      SettledMirrors(h, e, scope, built, d, s);
      SettledMerges(h, e, scope, d, s);
    }
    forall s, t | s in scope && t in scope && Settled(e, s) && Settled(e, t) && s.AsValue? && t.AsValue?
      ensures e.memo[s.ref].id == e.memo[t.ref].id <==> s == t
    {
      RoleOf(h, e, scope, s);
      assert Holds(e, s.ref, e.memo[s.ref].id) && Holds(e, t.ref, e.memo[t.ref].id);
    }
  }

  lemma RoleOf(h: Heap, e: Enc, scope: iset<Spot>, s: Spot)
    requires Linked(h, e, scope) && s in scope
    ensures InRole(e, s)
  {
    hide Edge, HoldsBad;
  }

  /** A root comes back as its node decodes: for a leaf or an object with its own node, its image. */
  lemma RootBack(h: Heap, e: Enc, v: Value, id: Id, built: seq<Value>, d: Heap)
    requires Inv(h, e) && Encodes(h, e, ValueChild(v), id) && Decoded(e.graph, |e.graph|, built, d)
    ensures id < |built| && Comes(h, e, v, built[id]) && (Plain(h, v) ==> built[id] == Image(e, v))
  {
    hide ArenaValid, ClassesShared, Owned, MemoShows, Encodes, DecodedValue, Image, Plain;
    EncodedBelow(h, e, ValueChild(v), id);
    assert built[id] == DecodedValue(e.graph[id], id);
    if Plain(h, v) { ImageOf(h, e, v, built[id]); }
  }

  /** A message: all its roots pushed through one encoder, and its arena decoded. */
  lemma RoundTrip(h: Heap, vs: seq<Value>, built: seq<Value>, d: Heap)
    requires EncodeChildren(h, FRESH, ValueChildren(vs)).Ok?
    requires RolesApart(h, Reach(h, ValueChildren(vs)))
    requires forall s :: s in Reach(h, ValueChildren(vs)) ==> JsObject(h, s)
    requires
      var e := EncodeChildren(h, FRESH, ValueChildren(vs)).value.0;
      Decoded(e.graph, |e.graph|, built, d)
    ensures
      var (e, ids) := EncodeChildren(h, FRESH, ValueChildren(vs)).value;
      var scope := Reach(h, ValueChildren(vs));
      && |ids| == |vs|
      && (forall i :: 0 <= i < |vs| ==>
        ids[i] < |built| && Comes(h, e, vs[i], built[ids[i]]) && (Plain(h, vs[i]) ==> built[ids[i]] == Image(e, vs[i])))
      && (forall l, w :: Comes(h, e, LeafValue(l), w) ==> w.LeafValue? && LeafBack(l, w.leaf))
      && (forall s :: s in scope ==> Mirrors(h, e, d, s) && Merges(h, e, d, s))
      && (forall s, t :: s in scope && t in scope && s.AsValue? && t.AsValue? ==>
        (e.memo[s.ref].id == e.memo[t.ref].id <==> s == t))
  {
    hide EncodeChildren, Inv, Linked, JsObject, Mirrors, Merges, Grows, Targets, Reach, Image, Comes, Encodes, Decoded, RolesApart,
         Plain, Settled, LeafBack;
    var cs := ValueChildren(vs);
    var scope := Reach(h, cs);
    var (e, ids) := EncodeChildren(h, FRESH, cs).value;
    ReachClosed(h, cs);
    FreshSound(h, scope);
    TraverseAll(h, FRESH, scope, cs);
    EncodeAllKeeps(h, FRESH, cs);
    forall s | s in scope ensures Settled(e, s) { ReachSettled(h, cs, scope, e, s); }
    ArenaBack(h, e, scope, built, d);
    forall i | 0 <= i < |vs|
      ensures ids[i] < |built| && Comes(h, e, vs[i], built[ids[i]])
      ensures Plain(h, vs[i]) ==> built[ids[i]] == Image(e, vs[i])
    {
      assert Encodes(h, e, cs[i], ids[i]);
      RootBack(h, e, vs[i], ids[i], built, d);
    }
    forall s | s in scope ensures s.ref in e.memo && e.memo[s.ref].Finished? { SettledMeans(e, s); }
    forall l, w | Comes(h, e, LeafValue(l), w) ensures w.LeafValue? && LeafBack(l, w.leaf) { LeafComes(h, e, l, w); }
  }

  lemma SettledMeans(e: Enc, s: Spot)
    requires Settled(e, s)
    ensures s.ref in e.memo && e.memo[s.ref].Finished?
  {
  }

  /** Once nothing is open, all that cleared roots reach is finished. */
  lemma ReachSettled(h: Heap, cs: seq<Child>, scope: iset<Spot>, e: Enc, s: Spot)
    requires Linked(h, e, scope) && RolesApart(h, scope) && Open(e) == {} && AllClear(h, e, cs) && AllWithin(h, scope, cs)
    requires s in Reach(h, cs)
    ensures Settled(e, s)
  {
    hide Linked, RolesApart, Targets, Reaches, BadBelow, ValueCycleBelow, Convertible;
    var i, t :| 0 <= i < |cs| && t in Targets(h, cs[i]) && Reaches(h, t, s);
    assert Clear(h, e, cs[i]) && Within(h, scope, cs[i]);
    SettledIsClean(h, e, scope, t);
  }

  /** A marker without a node of its own comes back as a marker of its kind: a leaf object, or a type around a class. */
  lemma MarkerComes(h: Heap, e: Enc, built: seq<Value>, d: Heap, r: Ref, w: Value)
    requires MemoShows(h, e) && Decoded(e.graph, |e.graph|, built, d) && r in h.shapes && Comes(h, e, Object(r), w)
    requires h.shapes[r].TypeMarker? ==> h.shapes[r].class_ in h.classes && InRole(e, AsClass(h.shapes[r].class_))
    ensures h.shapes[r].LeafMarker? ==> w.Object? && w.ref in d.shapes && d.shapes[w.ref] == h.shapes[r]
    ensures h.shapes[r].TypeMarker? ==>
      && w.Object? && w.ref in d.shapes && d.shapes[w.ref].TypeMarker?
      && exists c :: ClassBack(h, e, d, h.shapes[r].class_, d.shapes[w.ref].class_, c)
  {
    hide AllEncoded, PairsEncoded, NodeShows, Named;
    var id: Id :| Encodes(h, e, ValueChild(Object(r)), id) && w == DecodedValue(e.graph[id], id);
    if h.shapes[r].TypeMarker? {
      assert Encodes(h, e, ClassChild(h.shapes[r].class_), id);
      ClassIdBack(h, e, built, d, h.shapes[r].class_, id);
    }
  }

  /** An object that encodes as a leaf is encoded anew for every reference, so one met twice comes back as two. */
  lemma LeafObjectsSplit(h: Heap, e: Enc, r: Ref)
    requires r in h.shapes && h.shapes[r].LeafMarker?
    ensures
      var c := ValueChild(Object(r));
      var first := EncodeChild(h, e, c);
      && first.Ok?
      && var second := EncodeChild(h, first.value.0, c);
         && second.Ok? && first.value.1 != second.value.1
         && DecodedValue(first.value.0.graph[first.value.1], first.value.1) !=
            DecodedValue(second.value.0.graph[second.value.1], second.value.1)
  {
  }
}
