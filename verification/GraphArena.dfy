/** What every push keeps: the arena is well formed, and the memo says which node stands for which object. */
module GraphArena {
  import opened GraphModel

  ghost predicate IdsBelow(ids: seq<Id>, n: nat)
  {
    forall i :: 0 <= i < |ids| ==> ids[i] < n
  }

  ghost predicate PairsBelow(pairs: Pairs, n: nat)
  {
    forall i :: 0 <= i < |pairs| ==> pairs[i].0 < n && pairs[i].1 < n
  }

  /** What the arena demands of the node at index `n`: children come first, an instance names a class node. */
  ghost predicate NodeValid(graph: seq<Node>, node: Node, n: nat)
  {
    match node
    case LeafNode(_) => true
    case SeqNode(_, ids) => IdsBelow(ids, n)
    case DictNode(pairs) => PairsBelow(pairs, n)
    case ModuleNode(_, _, attrs) => PairsBelow(attrs, n)
    case InstanceNode(c, _, attrs) => c < n && c < |graph| && graph[c].ClassNode? && PairsBelow(attrs, n)
    case ClassNode(_, attrs) => PairsBelow(attrs, n)
  }

  ghost predicate ArenaValid(graph: seq<Node>)
  {
    forall i :: 0 <= i < |graph| ==> NodeValid(graph, graph[i], i)
  }

  /** `id` stands for class `c`: the node it is memoized as, or an attribute-less copy. */
  ghost predicate EncodesClass(heap: Heap, e: Enc, c: Ref, id: Id)
  {
    || (c in e.memo && e.memo[c] == Finished(id))
    || (c in heap.classes && id < |e.graph| && e.graph[id] == ClassNode(heap.classes[c].header, []))
  }

  /** `id` stands for a child. */
  ghost predicate Encodes(heap: Heap, e: Enc, c: Child, id: Id)
  {
    && id < |e.graph|
    && match c
       case ClassChild(r) => EncodesClass(heap, e, r, id)
       case ValueChild(LeafValue(l)) => e.graph[id] == LeafNode(EncodeLeaf(l))
       case ValueChild(Unsupported) => false
       case ValueChild(Object(r)) =>
         && r in heap.shapes
         && match heap.shapes[r]
            case TypeMarker(cls) => EncodesClass(heap, e, cls, id)
            case LeafMarker(k) => e.graph[id] == LeafNode(ObjectLeaf(k))
            case _ => r in e.memo && e.memo[r] == Finished(id)
  }

  ghost predicate AllEncoded(heap: Heap, e: Enc, cs: seq<Child>, ids: seq<Id>)
  {
    |ids| == |cs| && forall i :: 0 <= i < |ids| ==> Encodes(heap, e, cs[i], ids[i])
  }

  ghost predicate PairsEncoded(heap: Heap, e: Enc, vs: seq<Value>, pairs: Pairs)
  {
    && |pairs| == |vs| / 2
    && forall i :: 0 <= i < |pairs| ==>
      && Encodes(heap, e, ValueChild(vs[2 * i]), pairs[i].0)
      && Encodes(heap, e, ValueChild(vs[2 * i + 1]), pairs[i].1)
  }

  ghost function Headers(heap: Heap): set<Header>
  {
    set c | c in heap.classes :: heap.classes[c].header
  }

  /** `node` is what object `r` looks like, as a value or as a class. */
  ghost predicate NodeShows(heap: Heap, e: Enc, r: Ref, node: Node)
  {
    match node
    case LeafNode(_) => false
    case SeqNode(kind, ids) =>
      && r in heap.shapes && heap.shapes[r].Container? && heap.shapes[r].kind == kind
      && kind !in {Map, PlainObject} && AllEncoded(heap, e, ValueChildren(heap.shapes[r].items), ids)
    case DictNode(pairs) =>
      && r in heap.shapes && heap.shapes[r].Container? && heap.shapes[r].kind in {Map, PlainObject}
      && PairsEncoded(heap, e, heap.shapes[r].items, pairs)
    case ModuleNode(name, id, attrs) =>
      && r in heap.shapes && heap.shapes[r].Module? && heap.shapes[r].name == name && heap.shapes[r].id == id
      && PairsEncoded(heap, e, heap.shapes[r].attrs, attrs)
    case InstanceNode(c, id, attrs) =>
      && r in heap.shapes && heap.shapes[r].Instance? && heap.shapes[r].id == id
      && Encodes(heap, e, ClassChild(heap.shapes[r].class_), c)
      && PairsEncoded(heap, e, heap.shapes[r].attrs, attrs)
    case ClassNode(header, attrs) =>
      && r in heap.classes && heap.classes[r].header.id == header.id && header in Headers(heap)
      && PairsEncoded(heap, e, heap.classes[r].attrs, attrs)
      && (attrs != [] ==> heap.classes[r].header == header)
  }

  /** Every finished object has a node that shows it. */
  ghost predicate MemoShows(heap: Heap, e: Enc)
  {
    forall r :: r in e.memo && e.memo[r].Finished? ==>
      e.memo[r].id < |e.graph| && NodeShows(heap, e, r, e.graph[e.memo[r].id])
  }

  /** An attribute-less class has one node per class id, whichever object carries it. */
  ghost predicate ClassesShared(heap: Heap, e: Enc)
  {
    && (forall u :: u in e.classTypes ==>
      && e.classTypes[u] < |e.graph| && e.graph[e.classTypes[u]].ClassNode?
      && e.graph[e.classTypes[u]].header.id == u && e.graph[e.classTypes[u]].attrs == []
      && e.graph[e.classTypes[u]].header in Headers(heap))
    && (forall r :: r in e.memo && e.memo[r].Finished? && r in heap.classes && heap.classes[r].attrs == [] ==>
      e.memo[r].id < |e.graph| && e.graph[e.memo[r].id].ClassNode? ==>
        heap.classes[r].header.id in e.classTypes && e.classTypes[heap.classes[r].header.id] == e.memo[r].id)
  }

  /** The node at `i` is held by object `r`. */
  ghost predicate Holds(e: Enc, r: Ref, i: Id)
  {
    r in e.memo && e.memo[r] == Finished(i)
  }

  /** Every container node stands for exactly one object. */
  ghost predicate Owned(e: Enc)
  {
    && (forall r: Ref, s: Ref, i: Id :: Holds(e, r, i) && Holds(e, s, i) && r != s ==>
      i < |e.graph| && e.graph[i].ClassNode? && e.graph[i].attrs == [])
    && (forall i :: 0 <= i < |e.graph| && !e.graph[i].LeafNode? && !e.graph[i].ClassNode? ==>
      exists r :: Holds(e, r, i))
  }

  ghost predicate Inv(heap: Heap, e: Enc)
  {
    ArenaValid(e.graph) && MemoShows(heap, e) && ClassesShared(heap, e) && Owned(e)
  }

  /** The objects whose children are still being pushed. */
  ghost function Open(e: Enc): set<Ref>
  {
    set r | r in e.memo && e.memo[r].InProgress?
  }

  /** Nodes are only appended, and what is settled stays settled. */
  ghost predicate Grows(a: Enc, b: Enc)
  {
    && a.graph <= b.graph
    && (forall r :: r in a.memo && a.memo[r].Finished? ==> r in b.memo && b.memo[r] == a.memo[r])
    && (forall u :: u in a.classTypes ==> u in b.classTypes && b.classTypes[u] == a.classTypes[u])
  }

  lemma EncodesGrows(heap: Heap, a: Enc, b: Enc, c: Child, id: Id)
    requires Grows(a, b) && Encodes(heap, a, c, id)
    ensures Encodes(heap, b, c, id)
  {
    assert b.graph[id] == a.graph[id];
  }

  lemma ShowsGrows(heap: Heap, a: Enc, b: Enc, r: Ref, node: Node)
    requires Grows(a, b) && NodeShows(heap, a, r, node)
    ensures NodeShows(heap, b, r, node)
  {
    hide Encodes, Grows;
    forall c, id | Encodes(heap, a, c, id) ensures Encodes(heap, b, c, id) { EncodesGrows(heap, a, b, c, id); }
  }

  lemma ShownStays(heap: Heap, a: Enc, b: Enc)
    requires Grows(a, b) && MemoShows(heap, a)
    ensures forall r :: r in a.memo && a.memo[r].Finished? ==>
      a.memo[r].id < |b.graph| && NodeShows(heap, b, r, b.graph[a.memo[r].id])
  {
    hide NodeShows;
    forall r | r in a.memo && a.memo[r].Finished?
      ensures a.memo[r].id < |b.graph| && NodeShows(heap, b, r, b.graph[a.memo[r].id])
    {
      ShowsGrows(heap, a, b, r, a.graph[a.memo[r].id]);
    }
  }

  /** Appending one valid node keeps the arena valid. */
  lemma AppendValid(graph: seq<Node>, node: Node)
    requires ArenaValid(graph) && NodeValid(graph, node, |graph|)
    ensures ArenaValid(graph + [node])
  {
    var longer := graph + [node];
    forall i | 0 <= i < |longer| ensures NodeValid(longer, longer[i], i) {
      if i < |graph| {
        assert NodeValid(graph, graph[i], i);
      }
    }
  }

  lemma {:induction false} PairsOf(ids: seq<Id>)
    ensures |IdPairs(ids)| == |ids| / 2
    ensures forall i :: 0 <= i < |IdPairs(ids)| ==> IdPairs(ids)[i] == (ids[2 * i], ids[2 * i + 1])
  {
    if |ids| >= 2 {
      PairsOf(ids[2..]);
      forall i | 0 <= i < |IdPairs(ids)| ensures IdPairs(ids)[i] == (ids[2 * i], ids[2 * i + 1]) {
        if i > 0 { assert IdPairs(ids)[i] == IdPairs(ids[2..])[i - 1]; }
      }
    }
  }

  /** How a frame relates to the child it was opened for. */
  ghost predicate Opens(heap: Heap, c: Child, pending: Pending, key: Ref, children: seq<Child>)
  {
    if pending.PendingClass? then
      && key in heap.classes && heap.classes[key].header == pending.header
      && children == ValueChildren(heap.classes[key].attrs)
      && (c == ClassChild(key)
          || (c.ValueChild? && c.value.Object? && c.value.ref in heap.shapes
              && heap.shapes[c.value.ref] == TypeMarker(key)))
    else
      && c == ValueChild(Object(key)) && key in heap.shapes
      && match heap.shapes[key]
         case Container(kind, items) =>
           && pending == (if kind in {Map, PlainObject} then PendingDict else PendingSeq(kind))
           && children == ValueChildren(items)
         case Module(name, id, attrs) => pending == PendingModule(name, id) && children == ValueChildren(attrs)
         case Instance(cls, id, attrs) =>
           pending == PendingInstance(id) && children == [ClassChild(cls)] + ValueChildren(attrs)
         case _ => false
  }

  lemma EnterMeans(heap: Heap, e: Enc, c: Child)
    ensures
      var s := StepChild(heap, e, c);
      s.Enter? ==>
        && Opens(heap, c, s.pending, s.key, s.children) && s.key !in e.memo
        && s.enc == e.(memo := e.memo[s.key := InProgress])
        && (s.pending.PendingClass? && s.children == [] ==> s.pending.header.id !in e.classTypes)
  {
    hide EncodeLeaf, ValueChildren;
  }

  lemma MarkKeeps(heap: Heap, e: Enc, key: Ref)
    requires Inv(heap, e) && key !in e.memo
    ensures
      var marked := e.(memo := e.memo[key := InProgress]);
      Inv(heap, marked) && Grows(e, marked) && Open(marked) == Open(e) + {key}
  {
    hide NodeShows, ArenaValid;
    var marked := e.(memo := e.memo[key := InProgress]);
    ShownStays(heap, e, marked);
    forall r: Ref, i: Id ensures Holds(marked, r, i) <==> Holds(e, r, i) {}
  }

  lemma PushKeeps(heap: Heap, e: Enc, node: Node)
    requires Inv(heap, e)
    requires node.LeafNode? || (node.ClassNode? && node.attrs == [])
    ensures
      var pushed := e.(graph := e.graph + [node]);
      Inv(heap, pushed) && Grows(e, pushed) && Open(pushed) == Open(e)
  {
    hide NodeShows, ArenaValid;
    AppendValid(e.graph, node);
    var pushed := e.(graph := e.graph + [node]);
    ShownStays(heap, e, pushed);
    forall r: Ref, i: Id ensures Holds(pushed, r, i) <==> Holds(e, r, i) {}
  }

  ghost predicate Shareable(heap: Heap, e: Enc, r: Ref)
  {
    && r !in e.memo && r in heap.classes
    && heap.classes[r].attrs == [] && heap.classes[r].header.id in e.classTypes
  }

  ghost function Shared(heap: Heap, e: Enc, r: Ref): Enc
    requires Shareable(heap, e, r)
  {
    e.(memo := e.memo[r := Finished(e.classTypes[heap.classes[r].header.id])])
  }

  lemma ShareOwned(heap: Heap, e: Enc, r: Ref)
    requires Owned(e) && ClassesShared(heap, e) && Shareable(heap, e, r)
    ensures Owned(Shared(heap, e, r))
  {
    var id, shared := e.classTypes[heap.classes[r].header.id], Shared(heap, e, r);
    assert e.graph[id].ClassNode? && e.graph[id].attrs == [];
    hide ClassesShared;
    forall s: Ref, i: Id ensures Holds(shared, s, i) <==> Holds(e, s, i) || (s == r && i == id) {}
    forall i | 0 <= i < |shared.graph| && !shared.graph[i].LeafNode? && !shared.graph[i].ClassNode?
      ensures exists s :: Holds(shared, s, i)
    {
      var s :| Holds(e, s, i);
      assert Holds(shared, s, i);
    }
  }

  lemma ShareShows(heap: Heap, e: Enc, r: Ref)
    requires MemoShows(heap, e) && ClassesShared(heap, e) && Shareable(heap, e, r)
    ensures MemoShows(heap, Shared(heap, e, r)) && Grows(e, Shared(heap, e, r))
  {
    var id, shared := e.classTypes[heap.classes[r].header.id], Shared(heap, e, r);
    assert NodeShows(heap, shared, r, e.graph[id]);
    hide NodeShows, ClassesShared;
    ShownStays(heap, e, shared);
  }

  lemma ShareKeeps(heap: Heap, e: Enc, r: Ref)
    requires Inv(heap, e) && Shareable(heap, e, r)
    ensures
      var shared := Shared(heap, e, r);
      Inv(heap, shared) && Grows(e, shared) && Open(shared) == Open(e)
  {
    hide ArenaValid, Owned, MemoShows, Grows, Headers;
    ShareOwned(heap, e, r);
    ShareShows(heap, e, r);
  }

  /** A class that needs no frame. */
  lemma ClassDoneKeeps(heap: Heap, e: Enc, r: Ref)
    requires Inv(heap, e)
    ensures
      var s := EnterClassType(heap, e, r);
      s.Done? ==>
        Inv(heap, s.enc) && Grows(e, s.enc) && Open(s.enc) == Open(e) && Encodes(heap, s.enc, ClassChild(r), s.id)
  {
    hide NodeShows, ArenaValid, Owned, Headers;
    if r in e.memo && e.memo[r].Finished? {
    } else if r in heap.classes {
      if r in e.memo {
        PushKeeps(heap, e, ClassNode(heap.classes[r].header, []));
      } else if Shareable(heap, e, r) {
        ShareKeeps(heap, e, r);
      }
    }
  }

  /** A child that needs no frame: pushed at once, or already in the arena. */
  lemma DoneKeeps(heap: Heap, e: Enc, c: Child)
    requires Inv(heap, e)
    ensures
      var s := StepChild(heap, e, c);
      s.Done? ==> Inv(heap, s.enc) && Grows(e, s.enc) && Open(s.enc) == Open(e) && Encodes(heap, s.enc, c, s.id)
  {
    hide Inv, EnterClassType, ValueChildren, EncodesClass;
    if c.ClassChild? {
      ClassDoneKeeps(heap, e, c.ref);
    } else if c.value.LeafValue? {
      PushKeeps(heap, e, LeafNode(EncodeLeaf(c.value.leaf)));
    } else if c.value.Object? && c.value.ref in heap.shapes {
      var r := c.value.ref;
      match heap.shapes[r] {
        case TypeMarker(cls) => ClassDoneKeeps(heap, e, cls);
        case LeafMarker(k) => PushKeeps(heap, e, LeafNode(ObjectLeaf(k)));
        case _ => if r in e.memo { MemoBelow(heap, e, r); }
      }
    }
  }

  lemma MemoBelow(heap: Heap, e: Enc, r: Ref)
    requires Inv(heap, e) && r in e.memo
    ensures e.memo[r].Finished? ==> e.memo[r].id < |e.graph|
  {
    hide NodeShows;
  }

  lemma PairsBuilt(heap: Heap, e: Enc, vs: seq<Value>, ids: seq<Id>)
    requires AllEncoded(heap, e, ValueChildren(vs), ids)
    ensures PairsEncoded(heap, e, vs, IdPairs(ids)) && PairsBelow(IdPairs(ids), |e.graph|)
  {
    hide EncodesClass, EncodeLeaf, IdPairs;
    PairsOf(ids);
    var pairs := IdPairs(ids);
    forall i | 0 <= i < |pairs|
      ensures Encodes(heap, e, ValueChild(vs[2 * i]), pairs[i].0) && pairs[i].0 < |e.graph|
      ensures Encodes(heap, e, ValueChild(vs[2 * i + 1]), pairs[i].1) && pairs[i].1 < |e.graph|
    {
      assert Encodes(heap, e, ValueChildren(vs)[2 * i], ids[2 * i]);
      assert Encodes(heap, e, ValueChildren(vs)[2 * i + 1], ids[2 * i + 1]);
    }
  }

  lemma SeqBuilt(heap: Heap, e: Enc, cs: seq<Child>, ids: seq<Id>)
    requires AllEncoded(heap, e, cs, ids)
    ensures IdsBelow(ids, |e.graph|)
  {
    hide EncodesClass, EncodeLeaf;
    forall i | 0 <= i < |ids| ensures ids[i] < |e.graph| { assert Encodes(heap, e, cs[i], ids[i]); }
  }

  lemma InstanceBuilt(heap: Heap, e: Enc, cls: Ref, attrs: seq<Value>, ids: seq<Id>)
    requires AllEncoded(heap, e, [ClassChild(cls)] + ValueChildren(attrs), ids)
    ensures ids != [] && Encodes(heap, e, ClassChild(cls), ids[0]) && ids[0] < |e.graph|
    ensures PairsEncoded(heap, e, attrs, IdPairs(ids[1..])) && PairsBelow(IdPairs(ids[1..]), |e.graph|)
  {
    hide PairsEncoded, PairsBelow, IdPairs;
    var cs := [ClassChild(cls)] + ValueChildren(attrs);
    assert Encodes(heap, e, cs[0], ids[0]);
    var rest := ids[1..];
    forall i | 0 <= i < |rest| ensures Encodes(heap, e, ValueChildren(attrs)[i], rest[i]) {
      assert Encodes(heap, e, cs[i + 1], ids[i + 1]);
    }
    PairsBuilt(heap, e, attrs, rest);
  }

  /** A completed frame's node is valid and shows its object. */
  lemma BuildMeans(heap: Heap, e: Enc, c: Child, pending: Pending, key: Ref, children: seq<Child>, ids: seq<Id>)
    requires Opens(heap, c, pending, key, children) && AllEncoded(heap, e, children, ids)
    ensures
      var built := BuildNode(e.graph, pending, ids);
      built.Ok? ==> NodeValid(e.graph, built.value, |e.graph|) && NodeShows(heap, e, key, built.value)
  {
    hide Encodes, AllEncoded, PairsEncoded, PairsBelow, IdsBelow, IdPairs, ValueChildren;
    if pending.PendingClass? {
      PairsBuilt(heap, e, heap.classes[key].attrs, ids);
    } else {
      match heap.shapes[key] {
        case Container(kind, items) =>
          SeqBuilt(heap, e, children, ids);
          PairsBuilt(heap, e, items, ids);
        case Module(_, _, attrs) => PairsBuilt(heap, e, attrs, ids);
        case Instance(cls, _, attrs) => InstanceBuilt(heap, e, cls, attrs, ids);
      }
    }
  }

  lemma RecordOwned(heap: Heap, e: Enc, key: Ref, node: Node)
    requires MemoShows(heap, e) && Owned(e) && key in Open(e)
    ensures Owned(Record(e, key, node))
  {
    hide NodeShows;
    var built := Record(e, key, node);
    var n := |e.graph|;
    assert Holds(built, key, n);
    forall s: Ref, i: Id ensures Holds(built, s, i) <==> Holds(e, s, i) || (s == key && i == n) {}
    forall s: Ref, i: Id | Holds(e, s, i) ensures i < n && built.graph[i] == e.graph[i] {}
    forall i | 0 <= i < |built.graph| && !built.graph[i].LeafNode? && !built.graph[i].ClassNode?
      ensures exists r :: Holds(built, r, i)
    {
      if i < n {
        assert built.graph[i] == e.graph[i];
        var r :| Holds(e, r, i);
        assert Holds(built, r, i);
      }
    }
  }

  lemma RecordShared(heap: Heap, e: Enc, key: Ref, node: Node)
    requires MemoShows(heap, e) && ClassesShared(heap, e) && key in Open(e) && NodeShows(heap, e, key, node)
    requires node.ClassNode? && node.attrs == [] && heap.classes[key].attrs == [] ==> node.header.id !in e.classTypes
    ensures ClassesShared(heap, Record(e, key, node))
  {
    assert node.ClassNode? ==> node.header.id == heap.classes[key].header.id && node.header in Headers(heap);
    assert node.ClassNode? && heap.classes[key].attrs == [] ==> node.attrs == [];
    hide NodeShows, Headers;
    var built := Record(e, key, node);
    forall r | r in e.memo && e.memo[r].Finished? ensures r in built.memo && built.memo[r] == e.memo[r] {}
  }

  /** Recording a frame's node keeps everything, and closes the frame's object. */
  lemma RecordKeeps(heap: Heap, e: Enc, key: Ref, node: Node)
    requires Inv(heap, e) && key in Open(e)
    requires NodeValid(e.graph, node, |e.graph|) && NodeShows(heap, e, key, node)
    requires node.ClassNode? && node.attrs == [] && heap.classes[key].attrs == [] ==> node.header.id !in e.classTypes
    ensures
      var built := Record(e, key, node);
      Inv(heap, built) && Grows(e, built) && Open(built) == Open(e) - {key}
  {
    hide ArenaValid, NodeShows, ClassesShared, Owned;
    RecordShared(heap, e, key, node);
    RecordOwned(heap, e, key, node);
    AppendValid(e.graph, node);
    var built := Record(e, key, node);
    ShowsGrows(heap, e, built, key, node);
    ShownStays(heap, e, built);
    assert built.graph[|e.graph|] == node;
  }
}
