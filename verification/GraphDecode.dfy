/** Reading an arena back into JavaScript values, one node at a time. */
module GraphDecode {
  import opened GraphArena
  import opened GraphModel

  /**
   * The leaf a node decodes to: an integer is a number where a number holds it
   * exactly, a bigint elsewhere, and a function is the string that names it.
   */
  function DecodeLeaf(l: NodeLeaf): Leaf
    requires !l.ObjectLeaf?
  {
    match l
    case NoneLeaf => Null
    case IntLeaf(n) => if -SAFE_INT <= n <= SAFE_INT then Number(n) else BigInt(n)
    case FloatLeaf(n) => Number(n)
    case BigLeaf(n) => BigInt(n)
    case TextLeaf(k) => Text(k)
    case FuncLeaf(k) => Text(k)
    case OtherLeaf(k) => Other(k)
  }

  /** The leaves that come back as themselves. */
  predicate Stable(l: Leaf)
  {
    match l
    case Undefined => false
    case Null => true
    case MinusZero => false
    case Number(n) => -SAFE_INT <= n <= SAFE_INT || n < -I64_LIMIT || I64_LIMIT <= n
    case BigInt(n) => n < -SAFE_INT || SAFE_INT < n
    case Text(_) => true
    case Func(_) => false
    case Other(_) => true
  }

  lemma LeafRoundTrip(l: Leaf)
    ensures DecodeLeaf(EncodeLeaf(l)) == l <==> Stable(l)
  {
  }

  predicate Numeric(l: Leaf)
  {
    l.MinusZero? || l.Number? || l.BigInt?
  }

  /** The mathematical value of a numeric leaf. */
  function Amount(l: Leaf): int
    requires Numeric(l)
  {
    if l.MinusZero? then 0 else l.n
  }

  /**
   * What a leaf may come back as: a number or bigint of the same value, a
   * number exactly where it was one beyond 64 bits or is within 2^53; one
   * spelling of nothing; the string or the name of the function; itself.
   */
  ghost predicate LeafBack(l: Leaf, w: Leaf)
  {
    if Numeric(l) then
      && (w.Number? || w.BigInt?) && w.n == Amount(l)
      && w.Number? == (-0x20_0000_0000_0000 <= Amount(l) <= 0x20_0000_0000_0000
                       || (l.Number? && !(-0x8000_0000_0000_0000 <= Amount(l) < 0x8000_0000_0000_0000)))
    else match l
      case Undefined => w == Null
      case Text(k) => w == Text(k)
      case Func(k) => w == Text(k)
      case _ => w == l
  }

  lemma LeafMeaning(l: Leaf)
    ensures LeafBack(l, DecodeLeaf(EncodeLeaf(l)))
  {
  }

  /** What the sandbox sees of a numeric leaf: an integer of the same value, but for numbers beyond 64 bits a float. */
  lemma LeafSeen(l: Leaf)
    requires Numeric(l)
    ensures
      var seen := EncodeLeaf(l);
      && (seen.IntLeaf? || seen.BigLeaf? || seen.FloatLeaf?) && seen.n == Amount(l)
      && (seen.IntLeaf? <==> -0x8000_0000_0000_0000 <= Amount(l) <= 0x7FFF_FFFF_FFFF_FFFF)
      && (seen.FloatLeaf? ==> l.Number?) && (seen.BigLeaf? ==> l.BigInt?)
  {
  }

  /** Two leaves that come back as one: those with one encoding, and a function and the string that names it. */
  predicate LeavesMerge(l: Leaf, m: Leaf)
  {
    EncodeLeaf(l) == EncodeLeaf(m) || (l.Func? && m == Text(l.k)) || (m.Func? && l == Text(m.k))
  }

  lemma LeavesApart(l: Leaf, m: Leaf)
    ensures DecodeLeaf(EncodeLeaf(l)) == DecodeLeaf(EncodeLeaf(m)) <==> LeavesMerge(l, m)
  {
  }

  type Entries = seq<(Value, Value)>

  /** The identities of the objects a node decodes to: the value itself, and the class inside a type marker. */
  function ValueRef(i: Id): Ref { 2 * i }

  function ClassRef(i: Id): Ref { 2 * i + 1 }

  /** A node that decodes to an object of its own. */
  predicate Boxed(node: Node)
  {
    node.LeafNode? ==> node.leaf.ObjectLeaf?
  }

  function DecodedValue(node: Node, i: Id): Value
  {
    if Boxed(node) then Object(ValueRef(i)) else LeafValue(DecodeLeaf(node.leaf))
  }

  ghost predicate Distinct(vs: seq<Value>)
  {
    forall i, j :: 0 <= i < j < |vs| ==> vs[i] != vs[j]
  }

  /** What a set holds after adding each value in turn. */
  function Deduped(vs: seq<Value>): seq<Value>
  {
    if vs == [] then []
    else
      var n := |vs| - 1;
      var sofar := Deduped(vs[..n]);
      if vs[n] in sofar then sofar else sofar + [vs[n]]
  }

  /** A decoded set has the same members, each once, and is the list itself exactly when no two are equal. */
  lemma {:induction false} DedupedMeans(vs: seq<Value>)
    ensures Distinct(Deduped(vs)) && |Deduped(vs)| <= |vs|
    ensures forall v :: v in Deduped(vs) <==> v in vs
    ensures Deduped(vs) == vs <==> Distinct(vs)
  {
    if vs != [] {
      var n := |vs| - 1;
      DedupedMeans(vs[..n]);
      assert vs == vs[..n] + [vs[n]];
      if Distinct(vs) { assert Distinct(vs[..n]) && vs[n] !in vs[..n]; }
    }
  }

  method CreateSet(items: seq<Value>) returns (r: seq<Value>)
    ensures r == Deduped(items)
  {
    r := [];
    for i := 0 to |items|
      invariant r == Deduped(items[..i])
    {
      assert items[..i + 1][..i] == items[..i];
      if items[i] !in r { r := r + [items[i]]; }
    }
    assert items[..|items|] == items;
  }

  /** The position of a key, or the length where it is absent. */
  function KeyAt(es: Entries, k: Value): (r: nat)
    ensures r <= |es|
    ensures r < |es| ==> es[r].0 == k
    ensures forall j :: 0 <= j < r ==> es[j].0 != k
  {
    if es == [] || es[0].0 == k then 0 else 1 + KeyAt(es[1..], k)
  }

  /** Setting a key keeps its place, or appends it. */
  function MapSet(es: Entries, k: Value, v: Value): Entries
  {
    var i := KeyAt(es, k);
    if i < |es| then es[i := (k, v)] else es + [(k, v)]
  }

  function Mapped(es: Entries): Entries
  {
    if es == [] then [] else var n := |es| - 1; MapSet(Mapped(es[..n]), es[n].0, es[n].1)
  }

  ghost predicate DistinctKeys(es: Entries)
  {
    forall i, j :: 0 <= i < j < |es| ==> es[i].0 != es[j].0
  }

  lemma MapSetMeans(es: Entries, k: Value, v: Value)
    requires DistinctKeys(es)
    ensures DistinctKeys(MapSet(es, k, v))
    ensures forall p :: p in MapSet(es, k, v) <==> p == (k, v) || (p in es && p.0 != k)
  {
    var i := KeyAt(es, k);
    var r := MapSet(es, k, v);
    assert i < |r| && r[i] == (k, v);
    forall p | p in es && p.0 != k ensures p in r {
      var j :| 0 <= j < |es| && es[j] == p;
      assert r[j] == p;
    }
  }

  /** The last value given to a key. */
  ghost predicate LastFor(es: Entries, k: Value, v: Value)
  {
    es != [] && var (key, value) := es[|es| - 1]; if key == k then value == v else LastFor(es[..|es| - 1], k, v)
  }

  /** A decoded map has each key once, with the last value given to it. */
  lemma {:induction false} MappedMeans(es: Entries)
    ensures DistinctKeys(Mapped(es))
    ensures forall k, v :: (k, v) in Mapped(es) <==> LastFor(es, k, v)
  {
    hide DistinctKeys, MapSet;
    if es != [] {
      var n := |es| - 1;
      MappedMeans(es[..n]);
      MapSetMeans(Mapped(es[..n]), es[n].0, es[n].1);
    } else {
      DistinctNone();
    }
  }

  lemma DistinctNone()
    ensures DistinctKeys([])
  {
  }

  /** It is the list of entries itself exactly when no two keys are equal. */
  lemma {:induction false} MappedSame(es: Entries)
    ensures |Mapped(es)| <= |es|
    ensures Mapped(es) == es <==> DistinctKeys(es)
  {
    if es != [] {
      var n := |es| - 1;
      MappedSame(es[..n]);
      assert es == es[..n] + [es[n]];
      if DistinctKeys(es) { assert DistinctKeys(es[..n]); }
      MappedMeans(es);
    }
  }

  method CreateMap(pairs: Entries) returns (r: Entries)
    ensures r == Mapped(pairs)
  {
    r := [];
    for i := 0 to |pairs|
      invariant r == Mapped(pairs[..i])
    {
      assert pairs[..i + 1][..i] == pairs[..i];
      r := MapSet(r, pairs[i].0, pairs[i].1);
    }
    assert pairs[..|pairs|] == pairs;
  }

  /** Keys and values in turn. */
  function Flat(es: Entries): (vs: seq<Value>)
    ensures |vs| == 2 * |es|
    ensures forall i :: 0 <= i < |es| ==> vs[2 * i] == es[i].0 && vs[2 * i + 1] == es[i].1
  {
    seq(2 * |es|, i requires 0 <= i < 2 * |es| => if i % 2 == 0 then es[i / 2].0 else es[i / 2].1)
  }

  function Values(graph: seq<Node>, ids: seq<Id>): (vs: seq<Value>)
    requires IdsBelow(ids, |graph|)
    ensures |vs| == |ids| && forall i :: 0 <= i < |ids| ==> vs[i] == DecodedValue(graph[ids[i]], ids[i])
  {
    seq(|ids|, i requires 0 <= i < |ids| => DecodedValue(graph[ids[i]], ids[i]))
  }

  function EntriesOf(graph: seq<Node>, pairs: Pairs): (es: Entries)
    requires PairsBelow(pairs, |graph|)
    ensures |es| == |pairs|
    ensures forall i :: 0 <= i < |pairs| ==>
      es[i] == (DecodedValue(graph[pairs[i].0], pairs[i].0), DecodedValue(graph[pairs[i].1], pairs[i].1))
  {
    seq(|pairs|, i requires 0 <= i < |pairs| =>
      (DecodedValue(graph[pairs[i].0], pairs[i].0), DecodedValue(graph[pairs[i].1], pairs[i].1)))
  }

  /** An attribute's name node: only a string is one. */
  predicate IsName(graph: seq<Node>, id: Id)
    requires id < |graph|
  {
    graph[id].LeafNode? && graph[id].leaf.TextLeaf?
  }

  /** The attribute pairs that decode: those with a string for a name. */
  function Named(graph: seq<Node>, pairs: Pairs): (r: Pairs)
    requires PairsBelow(pairs, |graph|)
    ensures PairsBelow(r, |graph|)
  {
    if pairs == [] then []
    else
      var n := |pairs| - 1;
      Named(graph, pairs[..n]) + if IsName(graph, pairs[n].0) then [pairs[n]] else []
  }

  /** They keep their order, each standing or falling by its own name. */
  lemma {:induction false} NamedParts(graph: seq<Node>, a: Pairs, b: Pairs)
    requires PairsBelow(a, |graph|) && PairsBelow(b, |graph|)
    ensures PairsBelow(a + b, |graph|) && Named(graph, a + b) == Named(graph, a) + Named(graph, b)
  {
    hide IsName;
    if b == [] {
      assert a + b == a && Named(graph, b) == [];
    } else {
      var n, all := |b| - 1, a + b;
      var last := if IsName(graph, b[n].0) then [b[n]] else [];
      NamedParts(graph, a, b[..n]);
      assert all[..|all| - 1] == a + b[..n] && all[|all| - 1] == b[n];
      assert Named(graph, all) == Named(graph, a + b[..n]) + last;
      assert Named(graph, b) == Named(graph, b[..n]) + last;
    }
  }

  lemma NamedOne(graph: seq<Node>, pair: (Id, Id))
    requires PairsBelow([pair], |graph|) && pair.0 < |graph|
    ensures Named(graph, [pair]) == if IsName(graph, pair.0) then [pair] else []
  {
    assert [pair][..0] == [];
  }

  /** Where every name is a string, that is all of them. */
  lemma {:induction false} AllNamed(graph: seq<Node>, pairs: Pairs)
    requires PairsBelow(pairs, |graph|) && forall i :: 0 <= i < |pairs| ==> IsName(graph, pairs[i].0)
    ensures Named(graph, pairs) == pairs
  {
    if pairs != [] {
      AllNamed(graph, pairs[..|pairs| - 1]);
      assert pairs == pairs[..|pairs| - 1] + [pairs[|pairs| - 1]];
    }
  }

  /** The object the node at `i` decodes to. */
  function DecodeShape(graph: seq<Node>, node: Node, i: Id): Shape
    requires NodeValid(graph, node, |graph|) && Boxed(node)
  {
    match node
    case LeafNode(leaf) => LeafMarker(leaf.k)
    case SeqNode(kind, ids) =>
      Container(kind, if kind == Set then Deduped(Values(graph, ids)) else Values(graph, ids))
    case DictNode(pairs) => Container(Map, Flat(Mapped(EntriesOf(graph, pairs))))
    case ModuleNode(name, id, attrs) => Module(name, id, Flat(EntriesOf(graph, Named(graph, attrs))))
    case InstanceNode(c, id, attrs) => Instance(ClassRef(c), id, Flat(EntriesOf(graph, Named(graph, attrs))))
    case ClassNode(_, _) => TypeMarker(ClassRef(i))
  }

  function DecodeClass(graph: seq<Node>, node: Node): ClassShape
    requires NodeValid(graph, node, |graph|) && node.ClassNode?
  {
    ClassShape(node.header, Flat(EntriesOf(graph, Named(graph, node.attrs))))
  }

  /** The first `n` nodes have been decoded. */
  ghost predicate Decoded(graph: seq<Node>, n: nat, built: seq<Value>, heap: Heap)
    requires n <= |graph|
  {
    && |built| == n
    && (forall i :: 0 <= i < n ==> built[i] == DecodedValue(graph[i], i))
    && (forall i :: 0 <= i < n && Boxed(graph[i]) ==>
      NodeValid(graph, graph[i], |graph|) && ValueRef(i) in heap.shapes
      && heap.shapes[ValueRef(i)] == DecodeShape(graph, graph[i], i))
    && (forall i :: 0 <= i < n && graph[i].ClassNode? ==>
      NodeValid(graph, graph[i], |graph|) && ClassRef(i) in heap.classes
      && heap.classes[ClassRef(i)] == DecodeClass(graph, graph[i]))
    && (forall r :: r in heap.shapes ==> exists i :: 0 <= i < n && r == ValueRef(i))
    && (forall r :: r in heap.classes ==> exists i :: 0 <= i < n && r == ClassRef(i))
  }

  lemma ValidBelow(graph: seq<Node>, i: Id)
    requires ArenaValid(graph) && i < |graph|
    ensures NodeValid(graph, graph[i], i) && NodeValid(graph, graph[i], |graph|)
  {
  }

  /** Reads the values of children already built. */
  method Children(ghost graph: seq<Node>, built: seq<Value>, ids: seq<Id>) returns (r: seq<Value>)
    requires IdsBelow(ids, |built|) && |built| <= |graph|
    requires forall i :: 0 <= i < |built| ==> built[i] == DecodedValue(graph[i], i)
    ensures IdsBelow(ids, |graph|) && r == Values(graph, ids)
  {
    r := [];
    for i := 0 to |ids|
      invariant |r| == i && forall j :: 0 <= j < i ==> r[j] == DecodedValue(graph[ids[j]], ids[j])
    {
      r := r + [built[ids[i]]];
    }
  }

  /** The attribute pairs with a string for a name, read from children already built. */
  method AttrChildren(graph: seq<Node>, built: seq<Value>, pairs: Pairs) returns (r: Entries)
    requires PairsBelow(pairs, |built|) && |built| <= |graph|
    requires forall i :: 0 <= i < |built| ==> built[i] == DecodedValue(graph[i], i)
    ensures PairsBelow(pairs, |graph|) && r == EntriesOf(graph, Named(graph, pairs))
  {
    r := [];
    for i := 0 to |pairs|
      invariant PairsBelow(pairs[..i], |graph|) && r == EntriesOf(graph, Named(graph, pairs[..i]))
    {
      assert pairs[..i + 1][..i] == pairs[..i];
      if IsName(graph, pairs[i].0) { r := r + [(built[pairs[i].0], built[pairs[i].1])]; }
    }
    assert pairs[..|pairs|] == pairs;
  }

  method PairChildren(ghost graph: seq<Node>, built: seq<Value>, pairs: Pairs) returns (r: Entries)
    requires PairsBelow(pairs, |built|) && |built| <= |graph|
    requires forall i :: 0 <= i < |built| ==> built[i] == DecodedValue(graph[i], i)
    ensures PairsBelow(pairs, |graph|) && r == EntriesOf(graph, pairs)
  {
    r := [];
    for i := 0 to |pairs|
      invariant |r| == i
      invariant forall j :: 0 <= j < i ==>
        r[j] == (DecodedValue(graph[pairs[j].0], pairs[j].0), DecodedValue(graph[pairs[j].1], pairs[j].1))
    {
      r := r + [(built[pairs[i].0], built[pairs[i].1])];
    }
  }

  lemma DecodeOne(graph: seq<Node>, i: nat, built: seq<Value>, heap: Heap)
    requires ArenaValid(graph) && i < |graph| && Decoded(graph, i, built, heap)
    requires NodeValid(graph, graph[i], |graph|)
    ensures
      var node := graph[i];
      var shapes := if Boxed(node) then heap.shapes[ValueRef(i) := DecodeShape(graph, node, i)] else heap.shapes;
      var classes := if node.ClassNode? then heap.classes[ClassRef(i) := DecodeClass(graph, node)] else heap.classes;
      Decoded(graph, i + 1, built + [DecodedValue(node, i)], Heap(shapes, classes))
  {
    hide NodeValid, DecodeShape, DecodeClass, DecodedValue, ArenaValid;
    var node := graph[i];
    var shapes := if Boxed(node) then heap.shapes[ValueRef(i) := DecodeShape(graph, node, i)] else heap.shapes;
    var classes := if node.ClassNode? then heap.classes[ClassRef(i) := DecodeClass(graph, node)] else heap.classes;
    forall r | r in shapes ensures exists j :: 0 <= j < i + 1 && r == ValueRef(j) {
      if r in heap.shapes { var j :| 0 <= j < i && r == ValueRef(j); }
    }
    forall r | r in classes ensures exists j :: 0 <= j < i + 1 && r == ClassRef(j) {
      if r in heap.classes { var j :| 0 <= j < i && r == ClassRef(j); }
    }
  }

  class DecodedArena {
    var built: seq<Value>
    var shapes: map<Ref, Shape>
    var classes: map<Ref, ClassShape>

    /** One pass in arena order; every child is built before its holder reads it. */
    constructor (graph: seq<Node>)
      requires ArenaValid(graph)
      ensures Decoded(graph, |graph|, built, Heap(shapes, classes))
    {
      built, shapes, classes := [], map[], map[];
      new;
      hide NodeValid, DecodeShape, DecodeClass, ArenaValid, DecodedValue;
      for i := 0 to |graph|
        invariant Decoded(graph, i, built, Heap(shapes, classes))
      {
        ValidBelow(graph, i);
        var shape, cls := DecodeNode(graph, graph[i], i);
        DecodeOne(graph, i, built, Heap(shapes, classes));
        built := built + [DecodedValue(graph[i], i)];
        if Boxed(graph[i]) { shapes := shapes[ValueRef(i) := shape]; }
        if graph[i].ClassNode? { classes := classes[ClassRef(i) := cls]; }
      }
    }

    /** The object and, for a class node, the class object that a node decodes to. */
    method DecodeNode(graph: seq<Node>, node: Node, i: nat) returns (shape: Shape, cls: ClassShape)
      requires |built| == i <= |graph| && NodeValid(graph, node, i) && NodeValid(graph, node, |graph|)
      requires forall j :: 0 <= j < i ==> built[j] == DecodedValue(graph[j], j)
      ensures Boxed(node) ==> shape == DecodeShape(graph, node, i)
      ensures node.ClassNode? ==> cls == DecodeClass(graph, node)
    {
      shape, cls := LeafMarker(0), ClassShape(Header(0, 0, false, false), []);
      match node {
        case LeafNode(leaf) =>
          if leaf.ObjectLeaf? { shape := LeafMarker(leaf.k); }
        case SeqNode(kind, ids) =>
          var items := Children(graph, built, ids);
          if kind == Set { items := CreateSet(items); }
          shape := Container(kind, items);
        case DictNode(pairs) =>
          var entries := PairChildren(graph, built, pairs);
          entries := CreateMap(entries);
          shape := Container(Map, Flat(entries));
        case ModuleNode(name, id, attrs) =>
          var entries := AttrChildren(graph, built, attrs);
          shape := Module(name, id, Flat(entries));
        case InstanceNode(c, id, attrs) =>
          var entries := AttrChildren(graph, built, attrs);
          shape := Instance(ClassRef(c), id, Flat(entries));
        case ClassNode(header, attrs) =>
          var entries := AttrChildren(graph, built, attrs);
          shape, cls := TypeMarker(ClassRef(i)), ClassShape(header, Flat(entries));
      }
    }
  }
}
