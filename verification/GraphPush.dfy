/** What a push keeps and what its id stands for, by induction over the recursive encoding. */
module GraphPush {
  import opened GraphArena
  import opened GraphModel

  ghost predicate Kept(heap: Heap, a: Enc, b: Enc)
  {
    Inv(heap, b) && Grows(a, b) && Open(b) == Open(a)
  }

  lemma GrowsOn(a: Enc, b: Enc, c: Enc)
    requires Grows(a, b) && Grows(b, c)
    ensures Grows(a, c)
  {
  }

  /** A frame that was filled and completed. */
  lemma CompleteKept(heap: Heap, e: Enc, c: Child, pushed: Enc, ids: seq<Id>)
    requires StepChild(heap, e, c).Enter? && Inv(heap, e)
    requires
      var s := StepChild(heap, e, c);
      && Kept(heap, s.enc, pushed) && AllEncoded(heap, pushed, s.children, ids)
      && (s.children == [] ==> pushed == s.enc)
    ensures
      var s := StepChild(heap, e, c);
      var built := Complete(pushed, s.pending, s.key, ids);
      built.Ok? ==> Kept(heap, e, built.value.0) && Encodes(heap, built.value.0, c, built.value.1)
  {
    hide Inv, Grows, StepChild, AllEncoded, NodeShows, NodeValid, BuildNode, ValueChildren;
    var s := StepChild(heap, e, c);
    EnterMeans(heap, e, c);
    MarkKeeps(heap, e, s.key);
    var built := BuildNode(pushed.graph, s.pending, ids);
    if built.Ok? {
      BuildMeans(heap, pushed, c, s.pending, s.key, s.children, ids);
      BuiltClass(heap, c, s.pending, s.key, s.children, pushed.graph, ids);
      RecordKeeps(heap, pushed, s.key, built.value);
      var done := Record(pushed, s.key, built.value);
      GrowsOn(e, s.enc, pushed);
      GrowsOn(e, pushed, done);
      assert Open(done) == Open(e);
      assert |pushed.graph| < |done.graph|;
    }
  }

  lemma BuiltClass(heap: Heap, c: Child, pending: Pending, key: Ref, children: seq<Child>, graph: seq<Node>, ids: seq<Id>)
    requires Opens(heap, c, pending, key, children) && BuildNode(graph, pending, ids).Ok?
    ensures
      var node := BuildNode(graph, pending, ids).value;
      node.ClassNode? ==> pending == PendingClass(node.header) && (heap.classes[key].attrs == [] ==> children == [])
  {
  }

  lemma {:induction false} EncodeKeeps(heap: Heap, e: Enc, c: Child)
    requires Inv(heap, e)
    ensures
      var r := EncodeChild(heap, e, c);
      r.Ok? ==> Kept(heap, e, r.value.0) && Encodes(heap, r.value.0, c, r.value.1)
    decreases |Unmet(heap, e)|, 0, 0
  {
    hide Inv, Grows, StepChild, AllEncoded, Encodes, Complete, Unmet;
    DoneKeeps(heap, e, c);
    EnterMeetsOne(heap, e, c);
    var s := StepChild(heap, e, c);
    if s.Enter? {
      EnterMeans(heap, e, c);
      MarkKeeps(heap, e, s.key);
      EncodeAllKeeps(heap, s.enc, s.children);
      var pushed := EncodeChildren(heap, s.enc, s.children);
      if pushed.Ok? {
        CompleteKept(heap, e, c, pushed.value.0, pushed.value.1);
      }
    }
  }

  lemma {:induction false} EncodeAllKeeps(heap: Heap, e: Enc, cs: seq<Child>)
    requires Inv(heap, e)
    ensures
      var r := EncodeChildren(heap, e, cs);
      r.Ok? ==>
        && Kept(heap, e, r.value.0) && AllEncoded(heap, r.value.0, cs, r.value.1)
        && (cs == [] ==> r.value.0 == e)
    decreases |Unmet(heap, e)|, 1, |cs|
  {
    hide Inv, Encodes, Unmet, EncodeChild;
    if cs != [] {
      EncodeKeeps(heap, e, cs[0]);
      var first := EncodeChild(heap, e, cs[0]);
      if first.Ok? {
        UnmetShrinks(heap, e, first.value.0);
        EncodeAllKeeps(heap, first.value.0, cs[1..]);
        var rest := EncodeChildren(heap, first.value.0, cs[1..]);
        if rest.Ok? {
          EncodesGrows(heap, first.value.0, rest.value.0, cs[0], first.value.1);
        }
      }
    }
  }

  /** An object with its own node, pushed again at any later time, gives that node and adds nothing. */
  lemma PushedAgain(heap: Heap, a: Enc, b: Enc, r: Ref)
    requires Inv(heap, a) && EncodeChild(heap, a, ValueChild(Object(r))).Ok?
    requires r in heap.shapes && !heap.shapes[r].TypeMarker? && !heap.shapes[r].LeafMarker?
    requires Grows(EncodeChild(heap, a, ValueChild(Object(r))).value.0, b)
    ensures EncodeChild(heap, b, ValueChild(Object(r))) == Ok((b, EncodeChild(heap, a, ValueChild(Object(r))).value.1))
  {
    hide Inv, ValueChildren;
    EncodeKeeps(heap, a, ValueChild(Object(r)));
  }
}
