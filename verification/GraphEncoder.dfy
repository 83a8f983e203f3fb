/** The encoder's loop over an explicit stack, proved to be the recursive post-order encoding. */
module GraphEncoding {
  import opened GraphArena
  import opened GraphModel
  import opened GraphPush

  /** A container mid-encoding: the children still to push and the ids of those pushed. */
  datatype Frame = Frame(pending: Pending, key: Ref, children: seq<Child>, ids: seq<Id>)

  /** What is left to do once a child's id is known: fill and complete each waiting frame. */
  ghost function Unwind(heap: Heap, e: Enc, stack: seq<Frame>, done: Id): Result<(Enc, Id)>
    decreases |stack|
  {
    if stack == [] then Ok((e, done))
    else
      var f := stack[|stack| - 1];
      var pushed := EncodeChildren(heap, e, f.children);
      if pushed.Err? then Err(pushed.error)
      else
        var built := Complete(pushed.value.0, f.pending, f.key, f.ids + [done] + pushed.value.1);
        if built.Err? then built else Unwind(heap, built.value.0, stack[..|stack| - 1], built.value.1)
  }

  ghost function Resume(heap: Heap, r: Result<(Enc, Id)>, stack: seq<Frame>): Result<(Enc, Id)>
  {
    if r.Err? then r else Unwind(heap, r.value.0, stack, r.value.1)
  }

  /** What is left to do with `next` still to push. */
  ghost function Outcome(heap: Heap, e: Enc, stack: seq<Frame>, next: Child): Result<(Enc, Id)>
  {
    Resume(heap, EncodeChild(heap, e, next), stack)
  }

  /** Opening a frame and descending into its first child leaves the outcome alone. */
  lemma DescendKeeps(heap: Heap, e: Enc, stack: seq<Frame>, next: Child)
    requires StepChild(heap, e, next).Enter? && StepChild(heap, e, next).children != []
    ensures
      var s := StepChild(heap, e, next);
      Outcome(heap, e, stack, next) ==
      Outcome(heap, s.enc, stack + [Frame(s.pending, s.key, s.children[1..], [])], s.children[0])
  {
    hide StepChild, Complete;
    var s := StepChild(heap, e, next);
    var f := Frame(s.pending, s.key, s.children[1..], []);
    assert (stack + [f])[..|stack|] == stack;
    var first := EncodeChild(heap, s.enc, s.children[0]);
    var all := EncodeChildren(heap, s.enc, s.children);
    assert first.Err? ==> all == Err(first.error);
    if first.Ok? {
      var rest := EncodeChildren(heap, first.value.0, s.children[1..]);
      if rest.Ok? {
        assert f.ids + [first.value.1] + rest.value.1 == [first.value.1] + rest.value.1;
      }
    }
  }

  /** A finished child moves its frame on to the next one. */
  lemma AdvanceKeeps(heap: Heap, e: Enc, stack: seq<Frame>, f: Frame, done: Id)
    requires f.children != []
    ensures Unwind(heap, e, stack + [f], done) ==
            Outcome(heap, e, stack + [Frame(f.pending, f.key, f.children[1..], f.ids + [done])], f.children[0])
  {
    hide Complete;
    var g := Frame(f.pending, f.key, f.children[1..], f.ids + [done]);
    assert (stack + [f])[..|stack|] == stack && (stack + [g])[..|stack|] == stack;
    var first := EncodeChild(heap, e, f.children[0]);
    if first.Ok? {
      var rest := EncodeChildren(heap, first.value.0, f.children[1..]);
      if rest.Ok? {
        assert g.ids + [first.value.1] + rest.value.1 == f.ids + [done] + ([first.value.1] + rest.value.1);
      }
    }
  }

  /** A frame whose last child is finished is completed, and its own holder goes on. */
  lemma CompleteKeeps(heap: Heap, e: Enc, stack: seq<Frame>, f: Frame, done: Id)
    requires f.children == []
    ensures Unwind(heap, e, stack + [f], done) ==
            Resume(heap, Complete(e, f.pending, f.key, f.ids + [done]), stack)
  {
    assert (stack + [f])[..|stack|] == stack;
    assert f.ids + [done] + [] == f.ids + [done];
  }

  /** With nothing waiting, the outcome is the child's own encoding. */
  lemma OutcomeAlone(heap: Heap, e: Enc, c: Child)
    ensures Outcome(heap, e, [], c) == EncodeChild(heap, e, c)
  {
  }

  lemma UnwindNothing(heap: Heap, e: Enc, done: Id)
    ensures Unwind(heap, e, [], done) == Ok((e, done))
  {
  }

  /** What one step comes to when no child is left to push. */
  lemma OutcomeStep(heap: Heap, e: Enc, stack: seq<Frame>, c: Child)
    ensures
      var s := StepChild(heap, e, c);
      && (s.Fail? ==> Outcome(heap, e, stack, c) == Err(s.error))
      && (s.Done? ==> Outcome(heap, e, stack, c) == Unwind(heap, s.enc, stack, s.id))
      && (s.Enter? && s.children == [] ==>
        Outcome(heap, e, stack, c) == Resume(heap, Complete(s.enc, s.pending, s.key, []), stack))
  {
    hide StepChild, Complete, Unwind;
    var s := StepChild(heap, e, c);
    if s.Enter? && s.children == [] {
      assert EncodeChildren(heap, s.enc, s.children) == Ok((s.enc, []));
    }
  }

  lemma CompleteMeets(heap: Heap, e: Enc, f: Frame)
    ensures
      var built := Complete(e, f.pending, f.key, f.ids);
      built.Ok? ==> |Unmet(heap, built.value.0)| <= |Unmet(heap, e)|
  {
    hide BuildNode, Unmet;
    var built := Complete(e, f.pending, f.key, f.ids);
    if built.Ok? { UnmetShrinks(heap, e, built.value.0); }
  }

  /** The children waiting on the stack. */
  function Waiting(stack: seq<Frame>): nat
  {
    if stack == [] then 0 else Waiting(stack[..|stack| - 1]) + |stack[|stack| - 1].children|
  }

  lemma WaitingTop(stack: seq<Frame>, f: Frame)
    ensures Waiting(stack + [f]) == Waiting(stack) + |f.children|
  {
    assert (stack + [f])[..|stack|] == stack;
  }

  /** A list of ids put before those still to come. */
  ghost function Prefixed(ids: seq<Id>, r: Result<(Enc, seq<Id>)>): Result<(Enc, seq<Id>)>
  {
    if r.Err? then r else Ok((r.value.0, ids + r.value.1))
  }

  lemma EncodeNext(heap: Heap, e: Enc, cs: seq<Child>, i: nat, ids: seq<Id>)
    requires i < |cs|
    ensures
      var one := EncodeChild(heap, e, cs[i]);
      Prefixed(ids, EncodeChildren(heap, e, cs[i..])) ==
      if one.Err? then Err(one.error)
      else Prefixed(ids + [one.value.1], EncodeChildren(heap, one.value.0, cs[i + 1..]))
  {
    hide EncodeChild;
    var rest := cs[i..];
    assert rest[0] == cs[i] && rest[1..] == cs[i + 1..];
    var one := EncodeChild(heap, e, cs[i]);
    var all := EncodeChildren(heap, e, rest);
    if one.Ok? {
      var more := EncodeChildren(heap, one.value.0, cs[i + 1..]);
      assert all == if more.Err? then Err(more.error) else Ok((more.value.0, [one.value.1] + more.value.1));
      if more.Ok? { assert ids + ([one.value.1] + more.value.1) == ids + [one.value.1] + more.value.1; }
    }
  }

  lemma PrefixedNone(r: Result<(Enc, seq<Id>)>)
    ensures Prefixed([], r) == r
  {
    if r.Ok? { assert [] + r.value.1 == r.value.1; }
  }

  lemma EncodeNone(heap: Heap, e: Enc, cs: seq<Child>)
    requires cs == []
    ensures EncodeChildren(heap, e, cs) == Ok((e, []))
  {
  }

  /** What a step left behind, and what it came to: an id, or a frame for the children. */
  ghost predicate Took(s: Step, r: Result<(Id, Frame, bool)>, e: Enc)
  {
    && (s.Fail? ==> r == Err(s.error))
    && (s.Done? ==> r.Ok? && r.value.0 == s.id && !r.value.2 && e == s.enc)
    && (s.Enter? ==> r.Ok? && r.value.1 == Frame(s.pending, s.key, s.children, []) && r.value.2 && e == s.enc)
  }

  ghost predicate Agrees(goal: Result<(Enc, Id)>, r: Result<Id>, e: Enc)
  {
    if goal.Err? then r == Err(goal.error) else r == Ok(goal.value.1) && e == goal.value.0
  }

  class GraphEncoder {
    const heap: Heap
    var graph: seq<Node>
    var memo: map<Ref, Memo>
    var classTypes: map<Uuid, Id>

    function State(): Enc
      reads this
    {
      Enc(graph, memo, classTypes)
    }

    constructor (heap: Heap)
      ensures this.heap == heap && State() == Enc([], map[], map[]) && Inv(heap, State()) && Open(State()) == {}
    {
      this.heap := heap;
      graph, memo, classTypes := [], map[], map[];
    }

    /** Pushes a message's values one after the other: what they share they share in the arena. */
    method PushAll(values: seq<Value>) returns (r: Result<seq<Id>>)
      modifies this
      ensures
        var goal := EncodeChildren(heap, old(State()), ValueChildren(values));
        if goal.Err? then r == Err(goal.error) else r == Ok(goal.value.1) && State() == goal.value.0
    {
      hide EncodeChildren, EncodeChild, Kept, Inv;
      ghost var cs := ValueChildren(values);
      ghost var goal := EncodeChildren(heap, State(), cs);
      assert cs[0..] == cs;
      PrefixedNone(goal);
      var ids: seq<Id> := [];
      for i := 0 to |values|
        invariant Prefixed(ids, EncodeChildren(heap, State(), cs[i..])) == goal
      {
        EncodeNext(heap, State(), cs, i, ids);
        var pushed := Push(values[i]);
        if pushed.Err? { return Err(pushed.error); }
        ids := ids + [pushed.value];
      }
      EncodeNone(heap, State(), cs[|values|..]);
      assert ids + [] == ids;
      return Ok(ids);
    }

    /** What one child came to: an id, or a frame for its children. */
    method StepNext(c: Child) returns (r: Result<(Id, Frame, bool)>)
      modifies this
      ensures Took(StepChild(heap, old(State()), c), r, State())
    {
      var none := Frame(PendingDict, 0, [], []);
      match c {
        case ClassChild(ref) =>
          r := EnterClass(ref);
        case ValueChild(LeafValue(l)) =>
          r := Ok((|graph|, none, false));
          graph := graph + [LeafNode(EncodeLeaf(l))];
        case ValueChild(Unsupported) =>
          r := Err(Unconvertible);
        case ValueChild(Object(ref)) =>
          if ref !in heap.shapes { return Err(Unconvertible); }
          match heap.shapes[ref] {
            case Container(kind, items) =>
              r := EnterContainer(ref, if kind in {Map, PlainObject} then PendingDict else PendingSeq(kind),
                                  ValueChildren(items));
            case Module(name, id, attrs) =>
              r := EnterContainer(ref, PendingModule(name, id), ValueChildren(attrs));
            case Instance(cls, id, attrs) =>
              r := EnterContainer(ref, PendingInstance(id), [ClassChild(cls)] + ValueChildren(attrs));
            case TypeMarker(cls) =>
              r := EnterClass(cls);
            case LeafMarker(k) =>
              r := Ok((|graph|, none, false));
              graph := graph + [LeafNode(ObjectLeaf(k))];
          }
      }
    }

    method EnterContainer(ref: Ref, pending: Pending, children: seq<Child>) returns (r: Result<(Id, Frame, bool)>)
      modifies this
      ensures Took(EnterObject(old(State()), ref, pending, children), r, State())
    {
      var frame := Frame(pending, ref, children, []);
      if ref in memo {
        match memo[ref] {
          case Finished(id) => return Ok((id, frame, false));
          case InProgress => return Err(Circular);
        }
      }
      memo := memo[ref := InProgress];
      return Ok((0, frame, true));
    }

    method EnterClass(ref: Ref) returns (r: Result<(Id, Frame, bool)>)
      modifies this
      ensures Took(EnterClassType(heap, old(State()), ref), r, State())
    {
      var none := Frame(PendingDict, 0, [], []);
      if ref in memo && memo[ref].Finished? { return Ok((memo[ref].id, none, false)); }
      if ref !in heap.classes { return Err(Unconvertible); }
      var ClassShape(header, attrs) := heap.classes[ref];
      if ref in memo {
        r := Ok((|graph|, none, false));
        graph := graph + [ClassNode(header, [])];
        return;
      }
      if attrs == [] && header.id in classTypes {
        var id := classTypes[header.id];
        memo := memo[ref := Finished(id)];
        return Ok((id, none, false));
      }
      memo := memo[ref := InProgress];
      return Ok((0, Frame(PendingClass(header), ref, ValueChildren(attrs), []), true));
    }

    /** Builds and records a frame's node. */
    method CompleteFrame(frame: Frame) returns (r: Result<Id>)
      modifies this
      ensures Agrees(Complete(old(State()), frame.pending, frame.key, frame.ids), r, State())
    {
      var built := BuildNode(graph, frame.pending, frame.ids);
      if built.Err? { return Err(built.error); }
      var node, id := built.value, |graph|;
      graph := graph + [node];
      if node.ClassNode? && node.attrs == [] && node.header.id !in classTypes {
        classTypes := classTypes[node.header.id := id];
      }
      memo := memo[frame.key := Finished(id)];
      return Ok(id);
    }

    /**
     * Encodes a value on an explicit stack.  It ends on every heap, cyclic
     * ones included: each descent meets an object not met before.  The arena
     * only grows, stays valid, and holds the value at the id returned.
     */
    method Push(value: Value) returns (r: Result<Id>)
      modifies this
      ensures Agrees(EncodeChild(heap, old(State()), ValueChild(value)), r, State())
      ensures Inv(heap, old(State())) && r.Ok? ==>
        Kept(heap, old(State()), State()) && Encodes(heap, State(), ValueChild(value), r.value)
    {
      hide StepChild, Complete, EncodeChild, EncodeChildren, Outcome, Unwind, Unmet, Waiting, Inv, Kept, Encodes;
      ghost var start := State();
      if Inv(heap, start) { EncodeKeeps(heap, start, ValueChild(value)); }
      var stack: seq<Frame> := [];
      var next := ValueChild(value);
      ghost var goal := EncodeChild(heap, State(), next);
      OutcomeAlone(heap, State(), next);
      while true
        invariant Outcome(heap, State(), stack, next) == goal
        decreases |Unmet(heap, State())|, Waiting(stack)
      {
        ghost var before := State();
        EnterMeetsOne(heap, before, next);
        OutcomeStep(heap, before, stack, next);
        var step := StepNext(next);
        if step.Err? { return Err(step.error); }
        var (done, frame, entered) := step.value;
        if entered {
          if frame.children != [] {
            DescendKeeps(heap, before, stack, next);
            next := frame.children[0];
            stack := stack + [Frame(frame.pending, frame.key, frame.children[1..], [])];
            continue;
          }
          CompleteMeets(heap, State(), frame);
          var completed := CompleteFrame(frame);
          if completed.Err? { return Err(completed.error); }
          done := completed.value;
        } else {
          UnmetShrinks(heap, before, State());
        }
        ghost var waiting := Waiting(stack);
        while true
          invariant Unwind(heap, State(), stack, done) == goal
          invariant |Unmet(heap, State())| <= |Unmet(heap, before)| && Waiting(stack) <= waiting
          decreases |stack|
        {
          if stack == [] {
            UnwindNothing(heap, State(), done);
            return Ok(done);
          }
          var top := stack[|stack| - 1];
          ghost var rest := stack[..|stack| - 1];
          assert stack == rest + [top];
          WaitingTop(rest, top);
          stack := stack[..|stack| - 1];
          if top.children != [] {
            AdvanceKeeps(heap, State(), rest, top, done);
            next := top.children[0];
            var moved := Frame(top.pending, top.key, top.children[1..], top.ids + [done]);
            WaitingTop(rest, moved);
            stack := stack + [moved];
            break;
          }
          CompleteKeeps(heap, State(), rest, top, done);
          var full := Frame(top.pending, top.key, [], top.ids + [done]);
          CompleteMeets(heap, State(), full);
          var completed := CompleteFrame(full);
          if completed.Err? { return Err(completed.error); }
          done := completed.value;
        }
      }
    }
  }
}
