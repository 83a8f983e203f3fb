/**
 * Encoding a graph of JavaScript values as a post-order arena, stated
 * recursively: the definition the encoder's explicit-stack loop is proved against.
 */
module GraphModel {
  /** The identity of a JavaScript object. */
  type Ref = nat
  type Uuid = nat

  /**
   * JavaScript values without children that are no objects, and functions: two
   * spellings of nothing, integral numbers, bigints, strings, functions by the
   * string that names them, and booleans and the other numbers.
   */
  datatype Leaf =
    | Undefined | Null | MinusZero | Number(n: int) | BigInt(n: int) | Text(k: nat) | Func(k: nat) | Other(k: nat)

  /** `ObjectLeaf` is a node without children that stands for an object: bytes, a date, an exception. */
  datatype NodeLeaf =
    | NoneLeaf | IntLeaf(n: int) | FloatLeaf(n: int) | BigLeaf(n: int)
    | TextLeaf(k: nat) | FuncLeaf(k: nat) | OtherLeaf(k: nat) | ObjectLeaf(k: nat)

  datatype Value = LeafValue(leaf: Leaf) | Object(ref: Ref) | Unsupported

  datatype Kind = List | Tuple | Set | Map | PlainObject

  /** An object as it encodes when met as a value. */
  datatype Shape =
    | Container(kind: Kind, items: seq<Value>)
    | Module(name: nat, id: Uuid, attrs: seq<Value>)
    | Instance(class_: Ref, id: Uuid, attrs: seq<Value>)
    /** A `Type` marker around a class type object. */
    | TypeMarker(class_: Ref)
    /** An object that encodes as a leaf, anew for every reference: a buffer, a date, an exception. */
    | LeafMarker(k: nat)

  datatype Header = Header(id: Uuid, name: nat, hostDefined: bool, isDataclass: bool)

  /** An object as it encodes when met as a class type. */
  datatype ClassShape = ClassShape(header: Header, attrs: seq<Value>)

  datatype Heap = Heap(shapes: map<Ref, Shape>, classes: map<Ref, ClassShape>)

  type Id = nat
  type Pairs = seq<(Id, Id)>

  datatype Node =
    | LeafNode(leaf: NodeLeaf)
    /** A list, tuple or set. */
    | SeqNode(kind: Kind, ids: seq<Id>)
    | DictNode(pairs: Pairs)
    | ModuleNode(name: nat, id: Uuid, attrs: Pairs)
    | InstanceNode(class_: Id, id: Uuid, attrs: Pairs)
    | ClassNode(header: Header, attrs: Pairs)

  datatype Memo = InProgress | Finished(id: Id)

  datatype Enc = Enc(graph: seq<Node>, memo: map<Ref, Memo>, classTypes: map<Uuid, Id>)

  datatype EncodeError = Circular | NotAClassType | Unconvertible

  datatype Result<+T> = Ok(value: T) | Err(error: EncodeError)

  /** A value still to be pushed: an ordinary one, or the class type of an instance. */
  datatype Child = ValueChild(value: Value) | ClassChild(ref: Ref)

  /** What a container's node is built as once its children are pushed. */
  datatype Pending =
    | PendingSeq(kind: Kind)
    | PendingDict
    | PendingModule(name: nat, id: Uuid)
    | PendingInstance(id: Uuid)
    | PendingClass(header: Header)

  datatype Step =
    | Done(enc: Enc, id: Id)
    | Enter(enc: Enc, pending: Pending, key: Ref, children: seq<Child>)
    | Fail(error: EncodeError)

  const I64_LIMIT: int := 0x8000_0000_0000_0000
  const SAFE_INT: int := 0x20_0000_0000_0000

  function EncodeLeaf(l: Leaf): (r: NodeLeaf)
    ensures !r.ObjectLeaf?
  {
    match l
    case Undefined => NoneLeaf
    case Null => NoneLeaf
    case MinusZero => IntLeaf(0)
    case Number(n) => if -I64_LIMIT <= n < I64_LIMIT then IntLeaf(n) else FloatLeaf(n)
    case BigInt(n) => if -I64_LIMIT <= n < I64_LIMIT then IntLeaf(n) else BigLeaf(n)
    case Text(k) => TextLeaf(k)
    case Func(k) => FuncLeaf(k)
    case Other(k) => OtherLeaf(k)
  }

  function ValueChildren(vs: seq<Value>): (cs: seq<Child>)
    ensures |cs| == |vs| && forall i :: 0 <= i < |vs| ==> cs[i] == ValueChild(vs[i])
  {
    seq(|vs|, i requires 0 <= i < |vs| => ValueChild(vs[i]))
  }

  function PushNode(e: Enc, node: Node): Step
  {
    Done(e.(graph := e.graph + [node]), |e.graph|)
  }

  /** Opens a frame for a container, unless it is memoized: finished, or still being pushed. */
  function EnterObject(e: Enc, r: Ref, pending: Pending, children: seq<Child>): Step
  {
    if r in e.memo then
      match e.memo[r]
      case Finished(id) => Done(e, id)
      case InProgress => Fail(Circular)
    else Enter(e.(memo := e.memo[r := InProgress]), pending, r, children)
  }

  /** Opens a frame for a class node, or reuses one; a class still being pushed gets an attribute-less copy. */
  function EnterClassType(heap: Heap, e: Enc, r: Ref): Step
  {
    if r in e.memo && e.memo[r].Finished? then Done(e, e.memo[r].id)
    else if r !in heap.classes then Fail(Unconvertible)
    else
      var ClassShape(header, attrs) := heap.classes[r];
      if r in e.memo then PushNode(e, ClassNode(header, []))
      else if attrs == [] && header.id in e.classTypes then
        var id := e.classTypes[header.id];
        Done(e.(memo := e.memo[r := Finished(id)]), id)
      else Enter(e.(memo := e.memo[r := InProgress]), PendingClass(header), r, ValueChildren(attrs))
  }

  function StepValue(heap: Heap, e: Enc, v: Value): Step
  {
    match v
    case LeafValue(l) => PushNode(e, LeafNode(EncodeLeaf(l)))
    case Unsupported => Fail(Unconvertible)
    case Object(r) =>
      if r !in heap.shapes then Fail(Unconvertible)
      else match heap.shapes[r]
        case Container(kind, items) =>
          EnterObject(e, r, if kind in {Map, PlainObject} then PendingDict else PendingSeq(kind), ValueChildren(items))
        case Module(name, id, attrs) => EnterObject(e, r, PendingModule(name, id), ValueChildren(attrs))
        case Instance(c, id, attrs) => EnterObject(e, r, PendingInstance(id), [ClassChild(c)] + ValueChildren(attrs))
        case TypeMarker(c) => EnterClassType(heap, e, c)
        case LeafMarker(k) => PushNode(e, LeafNode(ObjectLeaf(k)))
  }

  /** Resolves one pending child. */
  function StepChild(heap: Heap, e: Enc, c: Child): Step
  {
    match c
    case ValueChild(v) => StepValue(heap, e, v)
    case ClassChild(r) => EnterClassType(heap, e, r)
  }

  /** Regroups ids pushed key, value, key, value into pairs; an odd one out is dropped. */
  function IdPairs(ids: seq<Id>): Pairs
  {
    if |ids| < 2 then [] else [(ids[0], ids[1])] + IdPairs(ids[2..])
  }

  /** The node for a container whose children have these ids. */
  function BuildNode(graph: seq<Node>, pending: Pending, ids: seq<Id>): Result<Node>
  {
    match pending
    case PendingSeq(kind) => Ok(SeqNode(kind, ids))
    case PendingDict => Ok(DictNode(IdPairs(ids)))
    case PendingModule(name, id) => Ok(ModuleNode(name, id, IdPairs(ids)))
    case PendingClass(header) => Ok(ClassNode(header, IdPairs(ids)))
    case PendingInstance(id) =>
      if ids != [] && ids[0] < |graph| && graph[ids[0]].ClassNode? then Ok(InstanceNode(ids[0], id, IdPairs(ids[1..])))
      else Err(NotAClassType)
  }

  /** Pushes a container's node, recording it for its object and an attribute-less class for its id. */
  function Record(e: Enc, key: Ref, node: Node): Enc
  {
    var id := |e.graph|;
    var classTypes :=
      if node.ClassNode? && node.attrs == [] && node.header.id !in e.classTypes
      then e.classTypes[node.header.id := id] else e.classTypes;
    Enc(e.graph + [node], e.memo[key := Finished(id)], classTypes)
  }

  function Complete(e: Enc, pending: Pending, key: Ref, ids: seq<Id>): Result<(Enc, Id)>
  {
    match BuildNode(e.graph, pending, ids)
    case Err(err) => Err(err)
    case Ok(node) => Ok((Record(e, key, node), |e.graph|))
  }

  /** The objects not yet met: what every descent uses up. */
  ghost function Unmet(heap: Heap, e: Enc): set<Ref>
  {
    heap.shapes.Keys + heap.classes.Keys - e.memo.Keys
  }

  /** A frame is opened only for an object not met before, and marks it. */
  lemma EnterMeets(heap: Heap, e: Enc, c: Child)
    ensures
      var s := StepChild(heap, e, c);
      && (s.Enter? ==> s.key in Unmet(heap, e) && s.enc == e.(memo := e.memo[s.key := InProgress]))
      && (s.Done? ==> e.memo.Keys <= s.enc.memo.Keys)
  {
    hide EncodeLeaf, ValueChildren;
  }

  lemma MeetOne(heap: Heap, e: Enc, r: Ref, m: Memo)
    requires r in Unmet(heap, e)
    ensures |Unmet(heap, e.(memo := e.memo[r := m]))| < |Unmet(heap, e)|
  {
    assert Unmet(heap, e.(memo := e.memo[r := m])) == Unmet(heap, e) - {r};
  }

  lemma EnterMeetsOne(heap: Heap, e: Enc, c: Child)
    ensures
      var s := StepChild(heap, e, c);
      && (s.Enter? ==> s.enc == e.(memo := e.memo[s.key := InProgress]) && |Unmet(heap, s.enc)| < |Unmet(heap, e)|)
      && (s.Done? ==> e.memo.Keys <= s.enc.memo.Keys)
  {
    hide Unmet, StepChild;
    EnterMeets(heap, e, c);
    var s := StepChild(heap, e, c);
    if s.Enter? { MeetOne(heap, e, s.key, InProgress); }
  }

  lemma UnmetShrinks(heap: Heap, a: Enc, b: Enc)
    requires a.memo.Keys <= b.memo.Keys
    ensures |Unmet(heap, b)| <= |Unmet(heap, a)|
  {
    Subset(Unmet(heap, b), Unmet(heap, a));
  }

  lemma {:induction false} Subset(x: set<Ref>, y: set<Ref>)
    requires x <= y
    ensures |x| <= |y|
  {
    if x != {} {
      var r :| r in x;
      Subset(x - {r}, y - {r});
    }
  }

  /** Recursive post-order encoding of one child. */
  ghost function EncodeChild(heap: Heap, e: Enc, c: Child): (r: Result<(Enc, Id)>)
    ensures r.Ok? ==> e.memo.Keys <= r.value.0.memo.Keys
    decreases |Unmet(heap, e)|, 0, 0
  {
    EnterMeetsOne(heap, e, c);
    match StepChild(heap, e, c)
    case Fail(err) => Err(err)
    case Done(e', id) => Ok((e', id))
    case Enter(e', pending, key, children) =>
      match EncodeChildren(heap, e', children)
      case Err(err) => Err(err)
      case Ok(pushed) => Complete(pushed.0, pending, key, pushed.1)
  }

  /** Encodes children in order, giving their ids. */
  ghost function EncodeChildren(heap: Heap, e: Enc, cs: seq<Child>): (r: Result<(Enc, seq<Id>)>)
    ensures r.Ok? ==> e.memo.Keys <= r.value.0.memo.Keys && |r.value.1| == |cs|
    decreases |Unmet(heap, e)|, 1, |cs|
  {
    if cs == [] then Ok((e, []))
    else
      match EncodeChild(heap, e, cs[0])
      case Err(err) => Err(err)
      case Ok(first) =>
        UnmetShrinks(heap, e, first.0);
        match EncodeChildren(heap, first.0, cs[1..])
        case Err(err) => Err(err)
        case Ok(rest) => Ok((rest.0, [first.1] + rest.1))
  }
}
